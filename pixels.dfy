/** The pixel comparator of `UIImageExtensions.swift`: the packed 32-bit `Pixel` with its
    byte-channel accessors, and `compare(with:tolerance:)`, which counts the positions where
    the two packed values, read as integers, differ by more than a threshold. The
    CoreGraphics decoding that fills the two buffers is not modelled: a decodable image
    already carries its pixels. */
module PixelCompare {
  import opened Wrappers

  /** Default of the `tolerance:` argument of `compare(with:tolerance:)`. */
  const DefaultThreshold: int := 1000

  /** A packed pixel: red in bits 0-7, green in 8-15, blue in 16-23, alpha in 24-31. The
      Swift setters are `mutating` on a value type, so each becomes a function returning the
      updated pixel. */
  datatype Pixel = Pixel(value: bv32) {
    function Red(): bv8 { (value & 0xFF) as bv8 }
    function Green(): bv8 { ((value >> 8) & 0xFF) as bv8 }
    function Blue(): bv8 { ((value >> 16) & 0xFF) as bv8 }
    function Alpha(): bv8 { ((value >> 24) & 0xFF) as bv8 }

    function WithRed(b: bv8): (p: Pixel)
      ensures p.Red() == b
      ensures p.Green() == Green() && p.Blue() == Blue() && p.Alpha() == Alpha()
    {
      Pixel((b as bv32) | (value & 0xFFFF_FF00))
    }

    function WithGreen(b: bv8): (p: Pixel)
      ensures p.Green() == b
      ensures p.Red() == Red() && p.Blue() == Blue() && p.Alpha() == Alpha()
    {
      Pixel(((b as bv32) << 8) | (value & 0xFFFF_00FF))
    }

    function WithBlue(b: bv8): (p: Pixel)
      ensures p.Blue() == b
      ensures p.Red() == Red() && p.Green() == Green() && p.Alpha() == Alpha()
    {
      Pixel(((b as bv32) << 16) | (value & 0xFF00_FFFF))
    }

    function WithAlpha(b: bv8): (p: Pixel)
      ensures p.Alpha() == b
      ensures p.Red() == Red() && p.Green() == Green() && p.Blue() == Blue()
    {
      Pixel(((b as bv32) << 24) | (value & 0x00FF_FFFF))
    }
  }

  /** The packed value is exactly its four channels laid side by side. */
  lemma PackedLayout(p: Pixel)
    ensures p.value == (p.Red() as bv32) | ((p.Green() as bv32) << 8)
                       | ((p.Blue() as bv32) << 16) | ((p.Alpha() as bv32) << 24)
  {
  }

  /** Packing four channels and reading them back gives each channel unchanged. */
  lemma ChannelsOfPacked(red: bv8, green: bv8, blue: bv8, alpha: bv8)
    ensures var p := Pixel((red as bv32) | ((green as bv32) << 8) | ((blue as bv32) << 16) | ((alpha as bv32) << 24));
      p.Red() == red && p.Green() == green && p.Blue() == blue && p.Alpha() == alpha
  {
  }

  /** A bitmap as the comparator sees it: its size and, when it can be drawn into a bitmap
      context, its pixels in row order. */
  datatype Image = Image(width: nat, height: nat, raster: Option<seq<bv32>>)

  /** The image has a backing bitmap that fills a non-empty context of its size. */
  predicate Decodable(img: Image) {
    img.raster.Some? && img.width > 0 && img.height > 0
    && |img.raster.value| == img.width * img.height
  }

  /** The comparator returns a score only for equal sizes and two decodable images. */
  predicate Comparable(image: Image, reference: Image) {
    image.width == reference.width && image.height == reference.height
    && Decodable(image) && Decodable(reference)
  }

  function Abs(x: int): nat { if x < 0 then -x else x }

  /** Whole packed values compared as integers, not channel by channel. */
  predicate Differs(p1: bv32, p2: bv32, threshold: int) {
    Abs(p1 as int - p2 as int) > threshold
  }

  /** Number of positions where the two buffers differ beyond `threshold`. */
  function DiffCount(a: seq<bv32>, b: seq<bv32>, threshold: int): (n: nat)
    requires |a| == |b|
    ensures n <= |a|
  {
    if a == [] then 0
    else
      DiffCount(a[..|a| - 1], b[..|b| - 1], threshold)
      + (if Differs(a[|a| - 1], b[|b| - 1], threshold) then 1 else 0)
  }

  /** The positions the comparator counts. */
  ghost function DiffPositions(a: seq<bv32>, b: seq<bv32>, threshold: int): set<int>
    requires |a| == |b|
  {
    set i | 0 <= i < |a| && Differs(a[i], b[i], threshold)
  }

  /** The counter equals the number of differing positions. */
  lemma {:induction false} DiffCountIsCardinality(a: seq<bv32>, b: seq<bv32>, threshold: int)
    requires |a| == |b|
    decreases |a|
    ensures DiffCount(a, b, threshold) == |DiffPositions(a, b, threshold)|
  {
    if a != [] {
      var n := |a| - 1;
      DiffCountIsCardinality(a[..n], b[..n], threshold);
      DiffPositionsStep(a, b, threshold, n);
    }
  }

  /** The differing positions of a buffer are those of its prefix, plus the last position
      when it differs. */
  lemma DiffPositionsStep(a: seq<bv32>, b: seq<bv32>, threshold: int, n: nat)
    requires |a| == |b| == n + 1
    ensures var before := DiffPositions(a[..n], b[..n], threshold);
      |DiffPositions(a, b, threshold)| == |before| + (if Differs(a[n], b[n], threshold) then 1 else 0)
  {
    var before := DiffPositions(a[..n], b[..n], threshold);
    assert forall i :: 0 <= i < n ==> a[..n][i] == a[i] && b[..n][i] == b[i];
    if Differs(a[n], b[n], threshold) {
      assert DiffPositions(a, b, threshold) == before + {n};
      assert n !in before;
    } else {
      assert DiffPositions(a, b, threshold) == before;
    }
  }

  /** Identical buffers have no differing pixel, for any non-negative threshold. */
  lemma {:induction false} DiffCountIdentical(a: seq<bv32>, threshold: int)
    requires threshold >= 0
    decreases |a|
    ensures DiffCount(a, a, threshold) == 0
  {
    if a != [] {
      DiffCountIdentical(a[..|a| - 1], threshold);
    }
  }

  /** Raising the threshold never increases the count. */
  lemma {:induction false} DiffCountMonotone(a: seq<bv32>, b: seq<bv32>, t1: int, t2: int)
    requires |a| == |b| && t1 <= t2
    decreases |a|
    ensures DiffCount(a, b, t2) <= DiffCount(a, b, t1)
  {
    if a != [] {
      DiffCountMonotone(a[..|a| - 1], b[..|b| - 1], t1, t2);
    }
  }

  /** The count does not depend on which image is the reference. */
  lemma {:induction false} DiffCountSymmetric(a: seq<bv32>, b: seq<bv32>, threshold: int)
    requires |a| == |b|
    decreases |a|
    ensures DiffCount(a, b, threshold) == DiffCount(b, a, threshold)
  {
    if a != [] {
      DiffCountSymmetric(a[..|a| - 1], b[..|b| - 1], threshold);
    }
  }

  /** The loop of `compare(with:tolerance:)` over the two pixel buffers. */
  method CountDifferentPixels(imagePixels: array<bv32>, referencePixels: array<bv32>, threshold: int)
    returns (numDiffPixels: nat)
    requires imagePixels.Length == referencePixels.Length
    ensures numDiffPixels == DiffCount(imagePixels[..], referencePixels[..], threshold)
    ensures numDiffPixels <= referencePixels.Length
  {
    var pixelCount := referencePixels.Length;
    numDiffPixels := 0;
    for i := 0 to pixelCount
      invariant numDiffPixels == DiffCount(imagePixels[..i], referencePixels[..i], threshold)
    {
      var p1 := imagePixels[i] as int;
      var p2 := referencePixels[i] as int;
      if Abs(p1 - p2) > threshold {
        numDiffPixels := numDiffPixels + 1;
      }
      assert imagePixels[..i + 1][..i] == imagePixels[..i];
      assert referencePixels[..i + 1][..i] == referencePixels[..i];
    }
    assert imagePixels[..] == imagePixels[..pixelCount];
    assert referencePixels[..] == referencePixels[..pixelCount];
  }

  /** The dissimilarity score `numDiffPixels / pixelCount`, or none when the images cannot be
      compared. */
  function Score(image: Image, reference: Image, threshold: int): (r: Option<real>)
    ensures r.Some? <==> Comparable(image, reference)
    ensures r.Some? ==> 0.0 <= r.value <= 1.0
  {
    if !Comparable(image, reference) then None
    else
      var n := DiffCount(image.raster.value, reference.raster.value, threshold);
      var total := reference.width * reference.height;
      assert n <= total;
      FractionAtMostOne(n, total);
      Some(n as real / total as real)
  }

  lemma FractionAtMostOne(n: nat, total: nat)
    requires 0 < total && n <= total
    ensures 0.0 <= n as real / total as real <= 1.0
  {
    assert n as real <= total as real;
  }

  /** `compare(with:tolerance:)` once both images are decoded: the two buffers are filled
      from the images and the loop counts the differing pixels. */
  method Compare(image: Image, reference: Image, threshold: int) returns (score: Option<real>)
    ensures score == Score(image, reference, threshold)
  {
    if !Comparable(image, reference) {
      return None;
    }
    var pixelCount := reference.width * reference.height;
    var a := image.raster.value;
    var b := reference.raster.value;
    var imagePixels := new bv32[pixelCount](i requires 0 <= i < pixelCount => a[i]);
    var referencePixels := new bv32[pixelCount](i requires 0 <= i < pixelCount => b[i]);
    assert imagePixels[..] == a && referencePixels[..] == b;
    var numDiffPixels := CountDifferentPixels(imagePixels, referencePixels, threshold);
    score := Some(numDiffPixels as real / pixelCount as real);
  }

  /** An image compared with itself scores 0. */
  lemma ScoreOfSelf(img: Image, threshold: int)
    requires Decodable(img) && threshold >= 0
    ensures Score(img, img, threshold) == Some(0.0)
  {
    DiffCountIdentical(img.raster.value, threshold);
  }

  /** The score is monotone non-increasing in the threshold. */
  lemma ScoreMonotone(image: Image, reference: Image, t1: int, t2: int)
    requires Comparable(image, reference) && t1 <= t2
    ensures Score(image, reference, t2).value <= Score(image, reference, t1).value
  {
    var a, b := image.raster.value, reference.raster.value;
    DiffCountMonotone(a, b, t1, t2);
    var total := (reference.width * reference.height) as real;
    var n1, n2 := DiffCount(a, b, t1) as real, DiffCount(a, b, t2) as real;
    QuotientMonotone(n2, n1, total);
  }

  lemma QuotientMonotone(x: real, y: real, d: real)
    requires x <= y && d > 0.0
    ensures x / d <= y / d
  {
    var q := (y - x) / d;
    assert q * d == y - x;
    assert y / d - x / d == q;
  }

  /** Two pixels whose packed values differ by one (0x00FFFFFF against 0x01000000) differ in
      every channel, yet are not counted at the default threshold. */
  lemma CarryAcrossChannelsNotCounted()
    ensures var p, q := Pixel(0x00FF_FFFF), Pixel(0x0100_0000);
      p.Red() != q.Red() && p.Green() != q.Green() && p.Blue() != q.Blue()
      && p.Alpha() != q.Alpha() && !Differs(p.value, q.value, DefaultThreshold)
  {
  }
}
