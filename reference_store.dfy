/** The reference-image lifecycle of `Snapshot.swift` as transitions over a file-system value:
    `createFolder`, `saveSnapshot`, `deleteSnapshotIfNeeded`, `loadSnapshot`, `copySnapshot`,
    the record and verify state machine for one configuration, and the walk over all
    configurations that collects every error and reports the first. The class in
    `snapshot_runner.dfy` performs these steps on its own state; this module states what each
    step does and proves what the steps promise together. */
module ReferenceStore {
  import opened Wrappers
  import opened SnapshotKeys
  import PixelCompare

  /** A stored file: PNG data of an image, or bytes that do not decode as an image. */
  datatype Blob = Encoded(image: PixelCompare.Image) | Undecodable

  /** The file system: files by path, the folders that exist, and the paths at which the file
      system refuses to create, write or remove anything (a permission error). */
  datatype Disk = Disk(files: map<string, Blob>, folders: set<string>, locked: set<string>)

  /** The four settings a `Snapshot` reads from its launch environment. */
  datatype Settings = Settings(referencePath: string, failurePath: string, recordMode: bool, tolerance: real)

  type Step = (Disk, Outcome<SnapshotError>)

  /** `UIImage.pngData()`: only an image with a backing bitmap can be encoded. */
  function PngData(img: PixelCompare.Image): (r: Option<Blob>)
    ensures r.Some? <==> PixelCompare.Decodable(img)
    ensures r.Some? ==> r.value.Encoded? && r.value.image == img
  {
    if PixelCompare.Decodable(img) then Some(Encoded(img)) else None
  }

  /** `createFolder(at:test:)`: nothing to do when the folder exists; otherwise create it. */
  function CreateFolder(d: Disk, root: string, e: ExecutedTestCase): (r: Step)
    ensures r.0.files == d.files && r.0.locked == d.locked
    ensures r.1.Pass? <==> ImagePath(root, e) in r.0.folders
    ensures r.1.Fail? <==> ImagePath(root, e) !in d.folders && ImagePath(root, e) in d.locked
    ensures r.1.Fail? ==> r.1.error == SnapshotError.CreateFolder(FsFailure(ImagePath(root, e)))
    ensures r.0.folders == d.folders + (if r.1.Pass? then {ImagePath(root, e)} else {})
  {
    var folder := ImagePath(root, e);
    if folder in d.folders then (d, Pass)
    else if folder in d.locked then (d, Fail(SnapshotError.CreateFolder(FsFailure(folder))))
    else (d.(folders := d.folders + {folder}), Pass)
  }

  /** `saveSnapshot(to:test:)`: encode, make sure the folder exists, then write (overwriting). */
  function SaveSnapshot(d: Disk, root: string, e: ExecutedTestCase): (r: Step)
    ensures r.0.locked == d.locked && d.folders <= r.0.folders
    ensures r.1.Pass? <==>
      && PixelCompare.Decodable(e.snapshot)
      && (ImagePath(root, e) in d.folders || ImagePath(root, e) !in d.locked)
      && ImageUrl(root, e, "") !in d.locked
    ensures r.1.Pass? ==> r.0.files == d.files[ImageUrl(root, e, "") := Encoded(e.snapshot)]
    ensures r.1.Pass? ==> r.0.folders == d.folders + {ImagePath(root, e)}
    ensures r.1.Fail? ==> r.0.files == d.files
    ensures !PixelCompare.Decodable(e.snapshot) ==> r == (d, Fail(PngRepresentation))
    ensures PixelCompare.Decodable(e.snapshot) && ImagePath(root, e) !in d.folders && ImagePath(root, e) in d.locked ==>
      r == (d, Fail(SnapshotError.CreateFolder(FsFailure(ImagePath(root, e)))))
    ensures PixelCompare.Decodable(e.snapshot) && (ImagePath(root, e) in d.folders || ImagePath(root, e) !in d.locked)
            && ImageUrl(root, e, "") in d.locked ==>
      && r.1 == Fail(SnapshotError.SaveSnapshot(FsFailure(ImageUrl(root, e, ""))))
      && r.0.folders == d.folders + {ImagePath(root, e)}
  {
    match PngData(e.snapshot)
    case None => (d, Fail(PngRepresentation))
    case Some(data) =>
      var (d1, created) := CreateFolder(d, root, e);
      if created.Fail? then (d1, created)
      else
        var url := ImageUrl(root, e, "");
        if url in d1.locked then (d1, Fail(SnapshotError.SaveSnapshot(FsFailure(url))))
        else (d1.(files := d1.files[url := data]), Pass)
  }

  /** `deleteSnapshotIfNeeded(at:test:)`: a missing file counts as deleted. */
  function DeleteSnapshotIfNeeded(d: Disk, url: string): (r: Step)
    ensures r.0.folders == d.folders && r.0.locked == d.locked
    ensures r.1.Pass? <==> url !in r.0.files
    ensures r.1.Fail? <==> url in d.files && url in d.locked
    ensures r.1.Fail? ==> r.1.error == SnapshotError.DeleteSnapshot(FsFailure(url))
    ensures r.0.files == if r.1.Pass? then d.files - {url} else d.files
  {
    if url !in d.files then (d, Pass)
    else if url in d.locked then (d, Fail(SnapshotError.DeleteSnapshot(FsFailure(url))))
    else (d.(files := d.files - {url}), Pass)
  }

  /** `loadSnapshot(from:test:)`: a missing file and an undecodable one are different errors. */
  function LoadSnapshot(d: Disk, root: string, e: ExecutedTestCase): (r: Result<PixelCompare.Image, SnapshotError>)
    ensures r == Err(ReferenceImageDoesNotExist) <==> ImageUrl(root, e, "") !in d.files
    ensures r == Err(SnapshotError.LoadSnapshot) <==> ImageUrl(root, e, "") in d.files && d.files[ImageUrl(root, e, "")].Undecodable?
    ensures r.Ok? <==> ImageUrl(root, e, "") in d.files && d.files[ImageUrl(root, e, "")].Encoded?
    ensures r.Ok? ==> d.files[ImageUrl(root, e, "")] == Encoded(r.value)
  {
    var url := ImageUrl(root, e, "");
    if url !in d.files then Err(ReferenceImageDoesNotExist)
    else match d.files[url]
      case Undecodable => Err(SnapshotError.LoadSnapshot)
      case Encoded(img) => Ok(img)
  }

  /** `copySnapshot(from:to:test:)`: place a `__REF` copy of the reference beside the failing
      capture, after removing any stale copy. */
  function CopySnapshot(d: Disk, source: string, destination: string, e: ExecutedTestCase): (r: Step)
    ensures r.0.folders == d.folders && r.0.locked == d.locked
    ensures var from, to := ImageUrl(source, e, ""), ImageUrl(destination, e, ReferenceCopySuffix);
      && (r.1.Pass? <==> from in d.files && to !in d.locked && ImagePath(destination, e) in d.folders)
      && (r.1.Pass? ==> r.0.files == d.files[to := d.files[from]])
      && (to in d.files && to in d.locked ==> r == (d, Fail(SnapshotError.DeleteSnapshot(FsFailure(to)))))
      && (!(to in d.files && to in d.locked) && r.1.Fail? ==>
            r.1 == Fail(SnapshotError.CopySnapshot(FsFailure(to))) && r.0.files == d.files - {to})
  {
    var from := ImageUrl(source, e, "");
    var to := ImageUrl(destination, e, ReferenceCopySuffix);
    ReferenceCopyNeverACapture(destination, e, source, e);
    var (d1, deleted) := DeleteSnapshotIfNeeded(d, to);
    if deleted.Fail? then (d1, deleted)
    else if from !in d1.files || ImagePath(destination, e) !in d1.folders || to in d1.locked then
      (d1, Fail(SnapshotError.CopySnapshot(FsFailure(to))))
    else
      assert d1.files[from] == d.files[from];
      assert d1.files - {to} == d.files - {to};
      (d1.(files := d1.files[to := d1.files[from]]), Pass)
  }

  /** `record(test:with:)`: outside record mode a no-op success; in record mode render, save
      under the reference root and then always fail with `didRecord`. */
  function Record(d: Disk, s: Settings, test: TestCase, config: Config,
                  rendered: Result<PixelCompare.Image, SnapshotError>): (r: Step)
    ensures !s.recordMode ==> r == (d, Pass)
    ensures s.recordMode ==> r.1.Fail?
  {
    if !s.recordMode then (d, Pass)
    else match rendered
      case Err(error) => (d, Fail(error))
      case Ok(img) =>
        var (d1, saved) := SaveSnapshot(d, s.referencePath, Execute(test, config, img));
        if saved.Fail? then (d1, saved) else (d1, Fail(DidRecord))
  }

  /** The failure path after a reference could not be loaded: save the capture under the
      failure root, then report the load error (or the save error if saving failed). */
  function OnLoadFailure(d: Disk, s: Settings, e: ExecutedTestCase, error: SnapshotError): (r: Step)
    ensures r.1.Fail? && r.0 == SaveSnapshot(d, s.failurePath, e).0
    ensures SaveSnapshot(d, s.failurePath, e).1.Pass? ==>
      r.1 == Fail(error) && r.0.files[ImageUrl(s.failurePath, e, "")] == Encoded(e.snapshot)
    ensures r.1 != Fail(error) ==> r.1 == SaveSnapshot(d, s.failurePath, e).1
  {
    var (d1, saved) := SaveSnapshot(d, s.failurePath, e);
    if saved.Fail? then (d1, saved) else (d1, Fail(error))
  }

  /** The failure path after a comparison failed: save the capture, copy the reference beside
      it, then report the comparison error (or the first error of those two steps). */
  function OnCompareFailure(d: Disk, s: Settings, e: ExecutedTestCase, error: SnapshotError): (r: Step)
    ensures r.1.Fail? && r.0.locked == d.locked
    ensures var (d1, saved) := SaveSnapshot(d, s.failurePath, e);
      saved.Pass? && CopySnapshot(d1, s.referencePath, s.failurePath, e).1.Pass? ==>
        && r.1 == Fail(error)
        && ImageUrl(s.failurePath, e, "") in r.0.files
        && r.0.files[ImageUrl(s.failurePath, e, "")] == Encoded(e.snapshot)
        && ImageUrl(s.failurePath, e, ReferenceCopySuffix) in r.0.files
    ensures var (d1, saved) := SaveSnapshot(d, s.failurePath, e);
      r.1 != Fail(error) ==> r.1 == saved || r.1 == CopySnapshot(d1, s.referencePath, s.failurePath, e).1
  {
    var (d1, saved) := SaveSnapshot(d, s.failurePath, e);
    if saved.Fail? then (d1, saved)
    else
      var (d2, copied) := CopySnapshot(d1, s.referencePath, s.failurePath, e);
      ReferenceCopyNeverACapture(s.failurePath, e, s.failurePath, e);
      if copied.Fail? then (d2, copied) else (d2, Fail(error))
  }

  /** `verify(test:with config:)`: record in record mode; otherwise render, load the
      reference and compare, persisting the failure artefacts on every failure. */
  function VerifyConfig(d: Disk, s: Settings, test: TestCase, config: Config,
                        rendered: Result<PixelCompare.Image, SnapshotError>): (r: Step)
    ensures r.0.locked == d.locked
    ensures s.recordMode ==> r.1.Fail?
    ensures !s.recordMode && rendered.Err? ==> r == (d, Fail(rendered.error))
    ensures r.1.Pass? ==> r.0 == d
  {
    if s.recordMode then Record(d, s, test, config, rendered)
    else match rendered
      case Err(error) => (d, Fail(error))
      case Ok(img) =>
        var e := Execute(test, config, img);
        match LoadSnapshot(d, s.referencePath, e)
        case Err(error) => OnLoadFailure(d, s, e, error)
        case Ok(reference) =>
          match CompareWithReference(e, reference, s.tolerance)
          case Pass => (d, Pass)
          case Fail(error) => OnCompareFailure(d, s, e, error)
  }

  /** Every configuration in order, each on the file system the previous ones left, whatever
      their outcome: the per-configuration outcomes. */
  function VerifyEach(d: Disk, s: Settings, test: TestCase, configs: seq<Config>,
                      render: Config -> Result<PixelCompare.Image, SnapshotError>)
    : (r: (Disk, seq<Outcome<SnapshotError>>))
    decreases |configs|
    ensures |r.1| == |configs|
  {
    if configs == [] then (d, [])
    else
      var (d1, outcomes) := VerifyEach(d, s, test, configs[..|configs| - 1], render);
      var last := configs[|configs| - 1];
      var (d2, outcome) := VerifyConfig(d1, s, test, last, render(last));
      (d2, outcomes + [outcome])
  }

  /** The errors collected by the `catch` of each configuration, in order. */
  function Failures(outcomes: seq<Outcome<SnapshotError>>): (errors: seq<SnapshotError>)
    decreases |outcomes|
    ensures |errors| <= |outcomes|
    ensures forall e :: e in errors ==> Fail(e) in outcomes
  {
    if outcomes == [] then []
    else
      Failures(outcomes[..|outcomes| - 1])
      + (if outcomes[|outcomes| - 1].Fail? then [outcomes[|outcomes| - 1].error] else [])
  }

  /** `errors.first`, as the overall outcome. */
  function FirstFailure(errors: seq<SnapshotError>): (r: Outcome<SnapshotError>)
    ensures r.Pass? <==> errors == []
    ensures r.Fail? ==> r.error == errors[0]
  {
    if errors == [] then Pass else Fail(errors[0])
  }

  /** The overall outcome of a walk: its first collected error, if any. */
  function Aggregate(outcomes: seq<Outcome<SnapshotError>>): (r: Outcome<SnapshotError>)
    ensures r.Pass? <==> forall i :: 0 <= i < |outcomes| ==> outcomes[i].Pass?
    ensures r.Fail? ==> r in outcomes
  {
    FailuresFirst(outcomes);
    FirstFailure(Failures(outcomes))
  }

  /** `verify(test:with configs:)` without its retry: every configuration is attempted and the
      first collected error, if any, is the result. */
  function VerifyAll(d: Disk, s: Settings, test: TestCase, configs: seq<Config>,
                     render: Config -> Result<PixelCompare.Image, SnapshotError>): (r: Step)
    ensures r.0 == VerifyEach(d, s, test, configs, render).0
    ensures r.1.Pass? <==> forall i :: 0 <= i < |configs| ==> VerifyEach(d, s, test, configs, render).1[i].Pass?
  {
    var (d1, outcomes) := VerifyEach(d, s, test, configs, render);
    (d1, Aggregate(outcomes))
  }

  // ----- Properties of the lifecycle -----

  /** In record mode a configuration never succeeds; when the render and the save succeed, the
      render is now the reference and the signal is `didRecord`. */
  lemma RecordAlwaysSignals(d: Disk, s: Settings, test: TestCase, config: Config, img: PixelCompare.Image)
    requires s.recordMode
    ensures var e := Execute(test, config, img);
      var (d1, outcome) := VerifyConfig(d, s, test, config, Ok(img));
      && outcome.Fail?
      && (SaveSnapshot(d, s.referencePath, e).1.Pass? ==>
            outcome == Fail(DidRecord) && d1.files[ImageUrl(s.referencePath, e, "")] == Encoded(img))
  {
  }

  /** Verify mode without a loadable reference: the capture goes to the failure root first,
      then the load error is reported (unless saving it failed, whose error is reported). */
  lemma ReferenceProblemPersistsCapture(d: Disk, s: Settings, test: TestCase, config: Config, img: PixelCompare.Image)
    requires !s.recordMode
    requires LoadSnapshot(d, s.referencePath, Execute(test, config, img)).Err?
    ensures var e := Execute(test, config, img);
      var loadError := LoadSnapshot(d, s.referencePath, e).error;
      var (d1, outcome) := VerifyConfig(d, s, test, config, Ok(img));
      && (d1, outcome.Pass?) == (SaveSnapshot(d, s.failurePath, e).0, false)
      && (SaveSnapshot(d, s.failurePath, e).1.Pass? ==>
            outcome == Fail(loadError) && d1.files[ImageUrl(s.failurePath, e, "")] == Encoded(img))
      && (SaveSnapshot(d, s.failurePath, e).1.Fail? ==> outcome == SaveSnapshot(d, s.failurePath, e).1)
      && (loadError == ReferenceImageDoesNotExist || loadError == SnapshotError.LoadSnapshot)
  {
  }

  /** A verification that passes writes and deletes nothing. */
  lemma PassLeavesDiskUnchanged(d: Disk, s: Settings, test: TestCase, config: Config,
                                rendered: Result<PixelCompare.Image, SnapshotError>)
    requires !s.recordMode
    requires VerifyConfig(d, s, test, config, rendered).1.Pass?
    ensures VerifyConfig(d, s, test, config, rendered).0 == d
  {
    var img := rendered.value;
    var e := Execute(test, config, img);
    var reference := LoadSnapshot(d, s.referencePath, e).value;
    assert CompareWithReference(e, reference, s.tolerance).Pass?;
  }

  /** On a mismatch with a writable failure root, the capture and a `__REF` copy of the
      reference are both in the failure folder and the comparison error is reported. */
  lemma MismatchPersistsBoth(d: Disk, s: Settings, test: TestCase, config: Config, img: PixelCompare.Image)
    requires !s.recordMode && s.referencePath != s.failurePath
    requires PixelCompare.Decodable(img)
    requires forall p :: p !in d.locked
    requires LoadSnapshot(d, s.referencePath, Execute(test, config, img)).Ok?
    requires CompareWithReference(Execute(test, config, img),
                                  LoadSnapshot(d, s.referencePath, Execute(test, config, img)).value,
                                  s.tolerance).Fail?
    ensures var e := Execute(test, config, img);
      var reference := LoadSnapshot(d, s.referencePath, e).value;
      var (d1, outcome) := VerifyConfig(d, s, test, config, Ok(img));
      && outcome == CompareWithReference(e, reference, s.tolerance)
      && d1.files == d.files[ImageUrl(s.failurePath, e, "") := Encoded(img)]
                            [ImageUrl(s.failurePath, e, ReferenceCopySuffix) := Encoded(reference)]
  {
    var e := Execute(test, config, img);
    var (d1, saved) := SaveSnapshot(d, s.failurePath, e);
    UrlDistinguishesRoots(s.referencePath, s.failurePath, e, "");
    assert d1.files[ImageUrl(s.referencePath, e, "")] == d.files[ImageUrl(s.referencePath, e, "")];
  }

  /** Recording and then verifying the same render against the fresh reference passes. */
  lemma RecordThenVerifyPasses(d: Disk, s: Settings, test: TestCase, config: Config, img: PixelCompare.Image)
    requires s.recordMode && s.tolerance >= 0.0
    requires PixelCompare.Decodable(img)
    requires forall p :: p !in d.locked
    ensures var d1 := VerifyConfig(d, s, test, config, Ok(img)).0;
      VerifyConfig(d1, s.(recordMode := false), test, config, Ok(img)) == (d1, Pass)
  {
    var e := Execute(test, config, img);
    CompareWithItselfPasses(e, s.tolerance);
  }

  /** Saving a capture that is already stored, in an existing folder, changes nothing. */
  lemma SaveWhenStored(d: Disk, root: string, e: ExecutedTestCase)
    requires PixelCompare.Decodable(e.snapshot)
    requires ImagePath(root, e) in d.folders && ImageUrl(root, e, "") !in d.locked
    requires ImageUrl(root, e, "") in d.files && d.files[ImageUrl(root, e, "")] == Encoded(e.snapshot)
    ensures SaveSnapshot(d, root, e) == (d, Pass)
  {
    assert d.folders + {ImagePath(root, e)} == d.folders;
    assert d.files[ImageUrl(root, e, "") := Encoded(e.snapshot)] == d.files;
  }

  /** Copying a reference whose copy is already in place changes nothing. */
  lemma CopyWhenStored(d: Disk, source: string, destination: string, e: ExecutedTestCase)
    requires var from, to := ImageUrl(source, e, ""), ImageUrl(destination, e, ReferenceCopySuffix);
      && from in d.files && to in d.files && d.files[to] == d.files[from]
      && to !in d.locked && ImagePath(destination, e) in d.folders
    ensures CopySnapshot(d, source, destination, e) == (d, Pass)
  {
    var from, to := ImageUrl(source, e, ""), ImageUrl(destination, e, ReferenceCopySuffix);
    assert d.files[to := d.files[from]] == d.files;
  }

  /** With a writable file system and distinct roots, verifying a second time changes nothing
      further and gives the same outcome. */
  lemma VerifyIdempotent(d: Disk, s: Settings, test: TestCase, config: Config,
                         rendered: Result<PixelCompare.Image, SnapshotError>)
    requires !s.recordMode && s.referencePath != s.failurePath
    requires forall p :: p !in d.locked
    ensures var (d1, o1) := VerifyConfig(d, s, test, config, rendered);
      VerifyConfig(d1, s, test, config, rendered) == (d1, o1)
  {
    if rendered.Ok? && PixelCompare.Decodable(rendered.value) {
      var e := Execute(test, config, rendered.value);
      var refUrl, failUrl := ImageUrl(s.referencePath, e, ""), ImageUrl(s.failurePath, e, "");
      var copyUrl := ImageUrl(s.failurePath, e, ReferenceCopySuffix);
      UrlDistinguishesRoots(s.referencePath, s.failurePath, e, "");
      ReferenceCopyNeverACapture(s.failurePath, e, s.referencePath, e);
      ReferenceCopyNeverACapture(s.failurePath, e, s.failurePath, e);
      var (d1, o1) := VerifyConfig(d, s, test, config, rendered);
      assert (refUrl in d1.files) == (refUrl in d.files);
      assert refUrl in d.files ==> d1.files[refUrl] == d.files[refUrl];
      assert LoadSnapshot(d1, s.referencePath, e) == LoadSnapshot(d, s.referencePath, e);
      match LoadSnapshot(d, s.referencePath, e)
      case Err(_) =>
        SaveWhenStored(d1, s.failurePath, e);
      case Ok(reference) =>
        if CompareWithReference(e, reference, s.tolerance).Fail? {
          SaveWhenStored(d1, s.failurePath, e);
          CopyWhenStored(d1, s.referencePath, s.failurePath, e);
        }
    }
  }

  /** The walk composes: running the configurations `c1 + c2` is running `c1`, then `c2` on
      the file system `c1` left, whatever `c1`'s outcomes were. */
  lemma {:induction false} VerifyEachAppend(d: Disk, s: Settings, test: TestCase, c1: seq<Config>, c2: seq<Config>,
                                             render: Config -> Result<PixelCompare.Image, SnapshotError>)
    decreases |c2|
    ensures var (d1, o1) := VerifyEach(d, s, test, c1, render);
      var (d2, o2) := VerifyEach(d1, s, test, c2, render);
      VerifyEach(d, s, test, c1 + c2, render) == (d2, o1 + o2)
  {
    if c2 == [] {
      assert c1 + c2 == c1;
      var (d1, o1) := VerifyEach(d, s, test, c1, render);
      assert VerifyEach(d1, s, test, c2, render) == (d1, []);
      assert o1 + [] == o1;
    } else {
      var init, last := c2[..|c2| - 1], c2[|c2| - 1];
      VerifyEachAppend(d, s, test, c1, init, render);
      assert (c1 + c2)[..|c1 + c2| - 1] == c1 + init;
      assert (c1 + c2)[|c1 + c2| - 1] == last;
      var (d1, o1) := VerifyEach(d, s, test, c1, render);
      var (di, oi) := VerifyEach(d1, s, test, init, render);
      var (d2, o) := VerifyConfig(di, s, test, last, render(last));
      assert VerifyEach(d1, s, test, c2, render) == (d2, oi + [o]);
      assert VerifyEach(d, s, test, c1 + c2, render) == (d2, (o1 + oi) + [o]);
      assert (o1 + oi) + [o] == o1 + (oi + [o]);
    }
  }

  /** The outcome of each configuration is the outcome of verifying it alone, on the state the
      earlier configurations left. */
  lemma VerifyEachStep(d: Disk, s: Settings, test: TestCase, configs: seq<Config>, k: nat,
                       render: Config -> Result<PixelCompare.Image, SnapshotError>)
    requires k < |configs|
    ensures var before := VerifyEach(d, s, test, configs[..k], render).0;
      VerifyEach(d, s, test, configs, render).1[k] == VerifyConfig(before, s, test, configs[k], render(configs[k])).1
  {
    var c := configs[k];
    VerifyEachAppend(d, s, test, configs[..k], configs[k..], render);
    assert configs[..k] + configs[k..] == configs;
    var (before, o1) := VerifyEach(d, s, test, configs[..k], render);
    VerifyEachAppend(before, s, test, [c], configs[k + 1..], render);
    assert [c] + configs[k + 1..] == configs[k..];
    VerifyEachSingle(before, s, test, c, render);
    var (d1, oa) := VerifyEach(before, s, test, [c], render);
    var ob := VerifyEach(d1, s, test, configs[k + 1..], render).1;
    IndexAfterPrefix(o1, oa, ob, k);
  }

  /** A single configuration is verified on the state given. */
  lemma VerifyEachSingle(d: Disk, s: Settings, test: TestCase, c: Config,
                         render: Config -> Result<PixelCompare.Image, SnapshotError>)
    ensures var (d1, o) := VerifyConfig(d, s, test, c, render(c));
      VerifyEach(d, s, test, [c], render) == (d1, [o])
  {
    assert [c][..|[c]| - 1] == [];
    var (d1, o) := VerifyConfig(d, s, test, c, render(c));
    assert VerifyEach(d, s, test, [c], render) == (d1, [] + [o]);
    assert [] + [o] == [o];
  }

  lemma IndexAfterPrefix<T>(xs: seq<T>, ys: seq<T>, zs: seq<T>, k: nat)
    requires |xs| == k && |ys| == 1
    ensures (xs + (ys + zs))[k] == ys[0]
  {
  }

  /** The collected errors are exactly the failing outcomes, in order. */
  lemma {:induction false} FailuresFirst(outcomes: seq<Outcome<SnapshotError>>)
    decreases |outcomes|
    ensures Failures(outcomes) == [] <==> forall i :: 0 <= i < |outcomes| ==> outcomes[i].Pass?
    ensures Failures(outcomes) != [] ==>
      exists k :: 0 <= k < |outcomes| && outcomes[k] == Fail(Failures(outcomes)[0])
                  && forall j :: 0 <= j < k ==> outcomes[j].Pass?
  {
    if outcomes != [] {
      var init := outcomes[..|outcomes| - 1];
      FailuresFirst(init);
      assert forall i :: 0 <= i < |init| ==> init[i] == outcomes[i];
    }
  }

  /** Aggregation: the walk passes exactly when every configuration passed, and otherwise
      reports the error of the first configuration that failed. */
  lemma AggregateReportsFirstFailure(outcomes: seq<Outcome<SnapshotError>>)
    ensures Aggregate(outcomes).Pass? <==> forall i :: 0 <= i < |outcomes| ==> outcomes[i].Pass?
    ensures Aggregate(outcomes).Fail? ==>
      exists k :: 0 <= k < |outcomes| && outcomes[k] == Aggregate(outcomes)
                  && forall j :: 0 <= j < k ==> outcomes[j].Pass?
  {
    FailuresFirst(outcomes);
  }

  /** In record mode a non-empty walk never reports success. */
  lemma RecordModeWalkFails(d: Disk, s: Settings, test: TestCase, configs: seq<Config>,
                            render: Config -> Result<PixelCompare.Image, SnapshotError>)
    requires s.recordMode && configs != []
    ensures VerifyAll(d, s, test, configs, render).1.Fail?
  {
    var outcomes := VerifyEach(d, s, test, configs, render).1;
    VerifyEachStep(d, s, test, configs, 0, render);
    FailuresFirst(outcomes);
  }

  /** In verify mode a walk in which every configuration passes leaves the file system as it was. */
  lemma {:induction false} PassingWalkLeavesDiskUnchanged(d: Disk, s: Settings, test: TestCase, configs: seq<Config>,
                                                          render: Config -> Result<PixelCompare.Image, SnapshotError>)
    requires !s.recordMode
    requires VerifyAll(d, s, test, configs, render).1.Pass?
    decreases |configs|
    ensures VerifyAll(d, s, test, configs, render).0 == d
  {
    var outcomes := VerifyEach(d, s, test, configs, render).1;
    FailuresFirst(outcomes);
    if configs != [] {
      var init := configs[..|configs| - 1];
      var (d1, o1) := VerifyEach(d, s, test, init, render);
      assert forall i :: 0 <= i < |o1| ==> o1[i] == outcomes[i];
      FailuresFirst(o1);
      PassingWalkLeavesDiskUnchanged(d, s, test, init, render);
      var last := configs[|configs| - 1];
      PassLeavesDiskUnchanged(d1, s, test, last, render(last));
    }
  }
}
