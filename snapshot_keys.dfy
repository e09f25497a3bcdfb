/** The pure parts of `Snapshot.swift` (the older API revision): the configuration enums and
    their raw values, the on-disk key of an executed test case, the render-size arithmetic,
    the tolerance decision, the error type and the configuration presets. */
module SnapshotKeys {
  import opened Wrappers
  import opened Strings
  import UIKit
  import PixelCompare

  /** `Snapshot.Constants.imageExt`. */
  const ImageExt: string := "png"

  /** `offsetY`: the margin rendered above the content and cropped off afterwards. */
  const OffsetY: real := 40.0

  /** Threshold passed to the pixel comparator by `ExecutedTestCase.compare`. */
  const ComparisonThreshold: int := 1_000_000

  /** Suffix of the copy of the reference placed beside a failing capture. */
  const ReferenceCopySuffix: string := "__REF"

  datatype Device = D4dot7 | D6dot1 | D6dot7 {
    function RawValue(): string {
      match this
      case D4dot7 => "4.7"
      case D6dot1 => "6.1"
      case D6dot7 => "6.7"
    }

    /** Logical size: the physical pixel size divided by the screen scale. */
    function Size(): (r: UIKit.CGSize)
      ensures r == match this
        case D4dot7 => UIKit.CGSize(375.0, 667.0)
        case D6dot1 => UIKit.CGSize(393.0, 852.0)
        case D6dot7 => UIKit.CGSize(430.0, 932.0)
    {
      match this
      case D4dot7 => UIKit.Divide(UIKit.CGSize(750.0, 1334.0), 2.0)
      case D6dot1 => UIKit.Divide(UIKit.CGSize(1179.0, 2556.0), 3.0)
      case D6dot7 => UIKit.Divide(UIKit.CGSize(1290.0, 2796.0), 3.0)
    }
  }

  datatype InterfaceStyle = Dark | Light {
    function RawValue(): string {
      match this
      case Dark => "dark"
      case Light => "light"
    }

    /** The UIKit style forced on the rendered view controller. */
    function OverrideUserInterfaceStyle(): (r: UIKit.UIUserInterfaceStyle)
      ensures (r == UIKit.UIUserInterfaceStyle.Dark) <==> (this == Dark)
    {
      match this
      case Dark => UIKit.UIUserInterfaceStyle.Dark
      case Light => UIKit.UIUserInterfaceStyle.Light
    }
  }

  datatype Language = En | Se | Jp {
    function RawValue(): string {
      match this
      case En => "en"
      case Se => "se"
      case Jp => "jp"
    }
  }

  datatype Config = Config(device: Device, style: InterfaceStyle, language: Language) {
    /** The configuration's part of every file name: the three raw values joined by "_". */
    function RawValue(): (r: string)
      ensures Split(r, '_') == [device.RawValue(), style.RawValue(), language.RawValue()]
      ensures '/' !in r
    {
      var pieces := [device.RawValue(), style.RawValue(), language.RawValue()];
      assert forall p :: p in pieces ==> p != [] && '_' !in p && '/' !in p;
      SplitJoin(pieces, '_');
      var r := Join(pieces, '_');
      assert pieces[1..][1..] == [pieces[2]];
      assert Join(pieces[1..], '_') == pieces[1] + "_" + pieces[2];
      assert r == pieces[0] + "_" + pieces[1] + "_" + pieces[2];
      r
    }
  }

  /** Distinct configurations never share a key: the raw value determines the configuration. */
  lemma RawValueInjective(c1: Config, c2: Config)
    ensures c1.RawValue() == c2.RawValue() <==> c1 == c2
  {
    if c1.RawValue() == c2.RawValue() {
      var p1 := Split(c1.RawValue(), '_');
      var p2 := Split(c2.RawValue(), '_');
      assert p1[0] == p2[0] && p1[1] == p2[1] && p1[2] == p2[2];
    }
  }

  /** The raw value ends with the language's two letters. */
  lemma RawValueEnding(c: Config)
    ensures |c.RawValue()| >= 2
    ensures c.RawValue()[|c.RawValue()| - 1] in {'n', 'e', 'p'}
  {
  }

  /** `[Config].one`, `.default` and `.all`. */
  function One(): seq<Config> {
    [Config(D6dot1, Light, En)]
  }

  function Default(): seq<Config> {
    [Config(D6dot1, Light, En), Config(D6dot1, Dark, En)]
  }

  function All(): seq<Config> {
    [Config(D4dot7, Light, En), Config(D6dot1, Light, En), Config(D6dot1, Dark, En)]
  }

  /** `devices`: the device of every configuration, in order. */
  function Devices(configs: seq<Config>): (r: seq<Device>)
    ensures |r| == |configs| && forall i :: 0 <= i < |configs| ==> r[i] == configs[i].device
  {
    seq(|configs|, i requires 0 <= i < |configs| => configs[i].device)
  }

  /** `styles`: the style of every configuration, in order. */
  function Styles(configs: seq<Config>): (r: seq<InterfaceStyle>)
    ensures |r| == |configs| && forall i :: 0 <= i < |configs| ==> r[i] == configs[i].style
  {
    seq(|configs|, i requires 0 <= i < |configs| => configs[i].style)
  }

  /** The `count` of the `[Config]` extension: devices.count times styles.count, that is the
      square of the number of configurations. */
  function Count(configs: seq<Config>): (r: nat)
    ensures r == |configs| * |configs|
  {
    |Devices(configs)| * |Styles(configs)|
  }

  /** The presets hold one, two and three configurations with pairwise distinct keys, so
      their `count` is 1, 4 and 9. */
  lemma Presets()
    ensures Count(One()) == 1 && Count(Default()) == 4 && Count(All()) == 9
    ensures Default()[0].RawValue() != Default()[1].RawValue()
    ensures All()[0].RawValue() != All()[1].RawValue() && All()[0].RawValue() != All()[2].RawValue()
    ensures All()[1].RawValue() != All()[2].RawValue()
  {
    RawValueInjective(Default()[0], Default()[1]);
    RawValueInjective(All()[0], All()[1]);
    RawValueInjective(All()[0], All()[2]);
    RawValueInjective(All()[1], All()[2]);
  }

  /** `Snapshot.Size`: what the caller asks the render to be. */
  datatype Size = Normal | Height(h: real) | Width(w: real) | Custom(width: real, height: real)

  /** The size the test case asks for under a device: the device's size with the given
      dimensions overridden. */
  function RequestedSize(size: Size, device: Device): UIKit.CGSize {
    match size
    case Normal => device.Size()
    case Height(h) => UIKit.CGSize(device.Size().width, h)
    case Width(w) => UIKit.CGSize(w, device.Size().height)
    case Custom(w, h) => UIKit.CGSize(w, h)
  }

  /** The size closure of `takeSnapshot`: the window is laid out `OffsetY` taller than asked. */
  function RenderSize(size: Size, device: Device): (r: UIKit.CGSize)
    ensures r.width == RequestedSize(size, device).width
    ensures r.height == RequestedSize(size, device).height + OffsetY
  {
    match size
    case Normal => UIKit.CGSize(device.Size().width, device.Size().height + OffsetY)
    case Height(h) => UIKit.CGSize(device.Size().width, h + OffsetY)
    case Width(w) => UIKit.CGSize(w, device.Size().height + OffsetY)
    case Custom(w, h) => UIKit.CGSize(w, h + OffsetY)
  }

  /** The rectangle `crop` keeps of a render of `size`: everything below the top margin. */
  function CropRect(size: UIKit.CGSize): UIKit.CGRect {
    UIKit.CGRect(0.0, OffsetY, size.width, size.height - OffsetY)
  }

  /** Cropping the render gives back exactly the size that was asked for. */
  lemma CropRestoresRequestedSize(size: Size, device: Device)
    ensures var rect := CropRect(RenderSize(size, device));
      rect.x == 0.0 && rect.y == OffsetY
      && UIKit.CGSize(rect.width, rect.height) == RequestedSize(size, device)
  {
  }

  /** A file-system refusal, identified by the path it concerned. */
  datatype FsFailure = FsFailure(path: string)

  /** The private `SnapshotError` of `Snapshot.swift`. */
  datatype SnapshotError =
    | LoadSnapshot
    | InvalidContext
    | TakeSnapshot
    | SaveSnapshot(saveCause: FsFailure)
    | CopySnapshot(copyCause: FsFailure)
    | DeleteSnapshot(deleteCause: FsFailure)
    | PngRepresentation
    | ReferenceImageDoesNotExist
    | CreateFolder(folderCause: FsFailure)
    | CreateView
    | DidRecord
    | Comparison(comparisonCause: FsFailure)
    | ReferenceImageNotEqual(diff: real)
    | CropSnapshot

  /** `Snapshot.TestCase`, without the view-controller factory (rendering is a parameter of
      the operations that need it). */
  datatype TestCase = TestCase(suite: string, name: string, suffix: Option<string>,
                               size: Size, renderDelay: real)

  /** `Snapshot.ExecutedTestCase`: a test case rendered under one configuration. */
  datatype ExecutedTestCase = ExecutedTestCase(suite: string, name: string, suffix: Option<string>,
                                               config: Config, snapshot: PixelCompare.Image)

  /** The map step of `execute(with:)`: attach the configuration and the captured image. */
  function Execute(test: TestCase, config: Config, snapshot: PixelCompare.Image): (e: ExecutedTestCase)
    ensures e.suite == test.suite && e.name == test.name && e.suffix == test.suffix
    ensures e.config == config && e.snapshot == snapshot
  {
    ExecutedTestCase(test.suite, test.name, test.suffix, config, snapshot)
  }

  function SuffixPart(suffix: Option<string>): string {
    match suffix
    case Some(s) => "_" + s
    case None => ""
  }

  /** `ExecutedTestCase.filename`: the name (if any), "_" and the suffix (if any), then "_" and
      the configuration's raw value. */
  function Filename(e: ExecutedTestCase): (r: string)
    ensures r == e.name + SuffixPart(e.suffix) + "_" + e.config.RawValue()
  {
    var withName := if e.name != "" then e.name else "";
    var withSuffix := withName + (if e.suffix.Some? then "_" + e.suffix.value else "");
    withSuffix + "_" + e.config.RawValue()
  }

  /** `ExecutedTestCase.folder`. */
  function Folder(e: ExecutedTestCase): string {
    e.suite
  }

  /** `imagePath(_:test:)`: the folder of the test under a root. */
  function ImagePath(root: string, e: ExecutedTestCase): string {
    root + "/" + Folder(e)
  }

  /** `imageUrl(_:test:suffix:)`: `<root>/<suite>/<filename><suffix>.png`. */
  function ImageUrl(root: string, e: ExecutedTestCase, suffix: string): (r: string)
    ensures r == root + "/" + e.suite + "/" + Filename(e) + suffix + "." + ImageExt
  {
    ImagePath(root, e) + "/" + Filename(e) + suffix + "." + ImageExt
  }

  /** Everything of a file path before the configuration's raw value. */
  function UrlHead(root: string, e: ExecutedTestCase): string {
    root + "/" + e.suite + "/" + e.name + SuffixPart(e.suffix) + "_"
  }

  lemma UrlShape(root: string, e: ExecutedTestCase, suffix: string)
    ensures ImageUrl(root, e, suffix) == UrlHead(root, e) + e.config.RawValue() + (suffix + "." + ImageExt)
  {
  }

  /** Test cases that differ only in their configuration get different files. */
  lemma UrlDistinguishesConfigs(root: string, e1: ExecutedTestCase, e2: ExecutedTestCase, suffix: string)
    requires e1.suite == e2.suite && e1.name == e2.name && e1.suffix == e2.suffix
    ensures ImageUrl(root, e1, suffix) == ImageUrl(root, e2, suffix) <==> e1.config == e2.config
  {
    UrlShape(root, e1, suffix);
    UrlShape(root, e2, suffix);
    if ImageUrl(root, e1, suffix) == ImageUrl(root, e2, suffix) {
      SameContext(UrlHead(root, e1), e1.config.RawValue(), e2.config.RawValue(), suffix + "." + ImageExt);
    }
    RawValueInjective(e1.config, e2.config);
  }

  /** The same test case under two different roots gets two different files. The paths are
      compared as unnormalised strings: Foundation would resolve the roots "a" and "a/" to the
      same file. */
  lemma UrlDistinguishesRoots(r1: string, r2: string, e: ExecutedTestCase, suffix: string)
    ensures ImageUrl(r1, e, suffix) == ImageUrl(r2, e, suffix) <==> r1 == r2
  {
    UrlAfterRoot(r1, e, suffix);
    UrlAfterRoot(r2, e, suffix);
    if ImageUrl(r1, e, suffix) == ImageUrl(r2, e, suffix) {
      SameTail(r1, r2, UrlTail(e, suffix));
    }
  }

  /** Everything of a file path after its root. */
  function UrlTail(e: ExecutedTestCase, suffix: string): string {
    "/" + e.suite + "/" + Filename(e) + suffix + "." + ImageExt
  }

  /** The capture and its `__REF` copy lie directly in `ImagePath`, the folder created before
      either is written. */
  lemma FilesInImagePath(root: string, e: ExecutedTestCase)
    ensures var folder := ImagePath(root, e) + "/";
      && ImageUrl(root, e, "")[..|folder|] == folder
      && ImageUrl(root, e, ReferenceCopySuffix)[..|folder|] == folder
  {
    var folder := ImagePath(root, e) + "/";
    assert ImageUrl(root, e, "") == folder + (Filename(e) + "" + "." + ImageExt);
    assert ImageUrl(root, e, ReferenceCopySuffix) == folder + (Filename(e) + ReferenceCopySuffix + "." + ImageExt);
  }

  lemma UrlAfterRoot(root: string, e: ExecutedTestCase, suffix: string)
    ensures ImageUrl(root, e, suffix) == root + UrlTail(e, suffix)
  {
  }

  /** The `__REF` copy can never land on a capture's file: the character before ".png" is
      "F" for the copy and the last letter of a language code for a capture. */
  lemma ReferenceCopyNeverACapture(r1: string, e1: ExecutedTestCase, r2: string, e2: ExecutedTestCase)
    ensures ImageUrl(r1, e1, ReferenceCopySuffix) != ImageUrl(r2, e2, "")
  {
    var u1, u2 := ImageUrl(r1, e1, ReferenceCopySuffix), ImageUrl(r2, e2, "");
    RawValueEnding(e2.config);
    var raw := e2.config.RawValue();
    assert u1[|u1| - 5] == 'F';
    assert u2[|u2| - 5] == raw[|raw| - 1];
  }

  /** `ExecutedTestCase.compare(with:tolerance:)`: no score fails with `pngRepresentation`; a
      score above the tolerance fails with that score; otherwise the comparison passes. */
  function CompareWithReference(e: ExecutedTestCase, reference: PixelCompare.Image, tolerance: real)
    : (r: Outcome<SnapshotError>)
    ensures var score := PixelCompare.Score(e.snapshot, reference, ComparisonThreshold);
      && (r.Pass? <==> score.Some? && score.value <= tolerance)
      && (score.None? ==> r == Fail(PngRepresentation))
      && (score.Some? && score.value > tolerance ==> r == Fail(ReferenceImageNotEqual(score.value)))
  {
    match PixelCompare.Score(e.snapshot, reference, ComparisonThreshold)
    case None => Fail(PngRepresentation)
    case Some(diff) =>
      if diff <= tolerance then Pass else Fail(ReferenceImageNotEqual(diff))
  }

  /** A capture compared with an identical reference passes for any non-negative tolerance. */
  lemma CompareWithItselfPasses(e: ExecutedTestCase, tolerance: real)
    requires PixelCompare.Decodable(e.snapshot) && tolerance >= 0.0
    ensures CompareWithReference(e, e.snapshot, tolerance) == Pass
  {
    PixelCompare.ScoreOfSelf(e.snapshot, ComparisonThreshold);
  }

  /** Red and green together span the low 16 bits, so at the comparison threshold a change
      confined to them (here the largest possible) is not a differing pixel. */
  lemma RedGreenChangeNotCounted()
    ensures var p, q := PixelCompare.Pixel(0x1234_0000), PixelCompare.Pixel(0x1234_FFFF);
      p.Blue() == q.Blue() && p.Alpha() == q.Alpha()
      && p.Red() != q.Red() && p.Green() != q.Green()
      && !PixelCompare.Differs(p.value, q.value, ComparisonThreshold)
  {
  }
}
