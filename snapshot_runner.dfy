/** The `Snapshot` object of `Snapshot.swift`: the settings it reads from the launch
    environment when created, and its file-system operations and verification flow performed
    step by step on the file system it owns. Each method is proved to leave the file system,
    and to return the outcome, that the matching transition of `ReferenceStore` prescribes. */
module SnapshotRunner {
  import opened Wrappers
  import opened SnapshotKeys
  import PixelCompare
  import RS = ReferenceStore
  import Env = LaunchEnvironment

  /** The settings `Snapshot.init()` reads, or none when either path is missing (where the
      source stops with `fatalError`). The private `LaunchEnvironment` of `Snapshot.swift` uses
      the keys, the record flag and the tolerance rule of `LaunchEnvironment.swift`, but has no
      default paths. */
  function SettingsFrom(environment: map<string, string>, arguments: seq<string>,
                        parseDouble: string -> Option<real>): (r: Option<RS.Settings>)
    ensures r.Some? <==> Env.ReferencePathKey in environment && Env.FailurePathKey in environment
    ensures r.Some? ==>
      && r.value.referencePath == environment[Env.ReferencePathKey]
      && r.value.failurePath == environment[Env.FailurePathKey]
      && (r.value.recordMode <==> Env.RecordModeKey in arguments)
      && r.value.tolerance == Env.Tolerance(environment, parseDouble)
  {
    if Env.ReferencePathKey !in environment || Env.FailurePathKey !in environment then None
    else Some(RS.Settings(environment[Env.ReferencePathKey], environment[Env.FailurePathKey],
                          Env.RecordMode(arguments), Env.Tolerance(environment, parseDouble)))
  }

  /** Passing the record flag switches record mode on and changes no other setting. */
  lemma RecordFlagOnlySwitchesRecordMode(environment: map<string, string>, arguments: seq<string>,
                                         parseDouble: string -> Option<real>)
    requires Env.ReferencePathKey in environment && Env.FailurePathKey in environment
    ensures var before := SettingsFrom(environment, arguments, parseDouble).value;
      SettingsFrom(environment, arguments + [Env.RecordModeKey], parseDouble).value
        == before.(recordMode := true)
  {
    assert (arguments + [Env.RecordModeKey])[|arguments|] == Env.RecordModeKey;
  }

  /** A snapshot runner over a file system: the file contents and folders change, the paths
      the file system refuses to touch do not. */
  class Snapshot {
    const referencePath: string
    const failurePath: string
    const recordMode: bool
    const tolerance: real

    var files: map<string, RS.Blob>
    var folders: set<string>
    const locked: set<string>

    function Disk(): RS.Disk
      reads this
    {
      RS.Disk(files, folders, locked)
    }

    function Settings(): RS.Settings {
      RS.Settings(referencePath, failurePath, recordMode, tolerance)
    }

    /** `init()`: the settings come from the launch environment; both paths must be set. */
    constructor(environment: map<string, string>, arguments: seq<string>,
                parseDouble: string -> Option<real>, disk: RS.Disk)
      requires Env.ReferencePathKey in environment && Env.FailurePathKey in environment
      ensures Settings() == SettingsFrom(environment, arguments, parseDouble).value
      ensures Disk() == disk
    {
      referencePath := environment[Env.ReferencePathKey];
      failurePath := environment[Env.FailurePathKey];
      recordMode := Env.RecordMode(arguments);
      tolerance := Env.Tolerance(environment, parseDouble);
      files, folders, locked := disk.files, disk.folders, disk.locked;
    }

    method CreateFolder(root: string, e: ExecutedTestCase) returns (outcome: Outcome<SnapshotError>)
      modifies this
      ensures (Disk(), outcome) == RS.CreateFolder(old(Disk()), root, e)
    {
      var imagePath := ImagePath(root, e);
      if imagePath in folders {
        return Pass;
      }
      if imagePath in locked {
        return Fail(SnapshotError.CreateFolder(FsFailure(imagePath)));
      }
      folders := folders + {imagePath};
      outcome := Pass;
    }

    method SaveSnapshot(root: string, e: ExecutedTestCase) returns (outcome: Outcome<SnapshotError>)
      modifies this
      ensures (Disk(), outcome) == RS.SaveSnapshot(old(Disk()), root, e)
    {
      var data := RS.PngData(e.snapshot);
      if data.None? {
        return Fail(PngRepresentation);
      }
      outcome := CreateFolder(root, e);
      if outcome.Fail? {
        return;
      }
      var imageUrl := ImageUrl(root, e, "");
      if imageUrl in locked {
        return Fail(SnapshotError.SaveSnapshot(FsFailure(imageUrl)));
      }
      files := files[imageUrl := data.value];
    }

    method DeleteSnapshotIfNeeded(url: string) returns (outcome: Outcome<SnapshotError>)
      modifies this
      ensures (Disk(), outcome) == RS.DeleteSnapshotIfNeeded(old(Disk()), url)
    {
      if url !in files {
        return Pass;
      }
      if url in locked {
        return Fail(DeleteSnapshot(FsFailure(url)));
      }
      files := files - {url};
      outcome := Pass;
    }

    method LoadSnapshot(root: string, e: ExecutedTestCase) returns (loaded: Result<PixelCompare.Image, SnapshotError>)
      ensures loaded == RS.LoadSnapshot(Disk(), root, e)
    {
      var imageUrl := ImageUrl(root, e, "");
      if imageUrl !in files {
        return Err(ReferenceImageDoesNotExist);
      }
      match files[imageUrl]
      case Undecodable => loaded := Err(SnapshotError.LoadSnapshot);
      case Encoded(image) => loaded := Ok(image);
    }

    method CopySnapshot(source: string, destination: string, e: ExecutedTestCase)
      returns (outcome: Outcome<SnapshotError>)
      modifies this
      ensures (Disk(), outcome) == RS.CopySnapshot(old(Disk()), source, destination, e)
    {
      var sourceFile := ImageUrl(source, e, "");
      var destinationFile := ImageUrl(destination, e, ReferenceCopySuffix);
      ReferenceCopyNeverACapture(destination, e, source, e);
      outcome := DeleteSnapshotIfNeeded(destinationFile);
      if outcome.Fail? {
        return;
      }
      if sourceFile !in files || ImagePath(destination, e) !in folders || destinationFile in locked {
        return Fail(SnapshotError.CopySnapshot(FsFailure(destinationFile)));
      }
      files := files[destinationFile := files[sourceFile]];
    }

    /** `ExecutedTestCase.compare(with:tolerance:)`, running the pixel loop. */
    method Compare(e: ExecutedTestCase, reference: PixelCompare.Image) returns (outcome: Outcome<SnapshotError>)
      ensures outcome == CompareWithReference(e, reference, tolerance)
    {
      var diff := PixelCompare.Compare(e.snapshot, reference, ComparisonThreshold);
      if diff.None? {
        return Fail(PngRepresentation);
      }
      if diff.value > tolerance {
        return Fail(ReferenceImageNotEqual(diff.value));
      }
      outcome := Pass;
    }

    method Record(test: TestCase, config: Config, rendered: Result<PixelCompare.Image, SnapshotError>)
      returns (outcome: Outcome<SnapshotError>)
      modifies this
      ensures (Disk(), outcome) == RS.Record(old(Disk()), Settings(), test, config, rendered)
    {
      if !recordMode {
        return Pass;
      }
      if rendered.Err? {
        return Fail(rendered.error);
      }
      outcome := SaveSnapshot(referencePath, Execute(test, config, rendered.value));
      if outcome.Pass? {
        outcome := Fail(DidRecord);
      }
    }

    /** `verify(test:with config:)`; `render` stands for `TestCase.execute(with:)`'s capture. */
    method VerifyConfig(test: TestCase, config: Config, render: Config -> Result<PixelCompare.Image, SnapshotError>)
      returns (outcome: Outcome<SnapshotError>)
      modifies this
      ensures (Disk(), outcome) == RS.VerifyConfig(old(Disk()), Settings(), test, config, render(config))
    {
      var rendered := render(config);
      if recordMode {
        outcome := Record(test, config, rendered);
        return;
      }
      if rendered.Err? {
        return Fail(rendered.error);
      }
      var executedTest := Execute(test, config, rendered.value);
      var loaded := LoadSnapshot(referencePath, executedTest);
      if loaded.Err? {
        outcome := SaveSnapshot(failurePath, executedTest);
        if outcome.Pass? {
          outcome := Fail(loaded.error);
        }
        return;
      }
      var compared := Compare(executedTest, loaded.value);
      if compared.Pass? {
        return Pass;
      }
      outcome := SaveSnapshot(failurePath, executedTest);
      if outcome.Fail? {
        return;
      }
      outcome := CopySnapshot(referencePath, failurePath, executedTest);
      if outcome.Pass? {
        outcome := compared;
      }
    }

    /** `verify(test:with configs:)` without its retry: every configuration is verified in
        turn, the errors are collected, and the first one is the result. */
    method VerifyAll(test: TestCase, configs: seq<Config>, render: Config -> Result<PixelCompare.Image, SnapshotError>)
      returns (outcome: Outcome<SnapshotError>)
      modifies this
      ensures (Disk(), outcome) == RS.VerifyAll(old(Disk()), Settings(), test, configs, render)
    {
      var errors: seq<SnapshotError> := [];
      ghost var outcomes: seq<Outcome<SnapshotError>> := [];
      for i := 0 to |configs|
        invariant (Disk(), outcomes) == RS.VerifyEach(old(Disk()), Settings(), test, configs[..i], render)
        invariant errors == RS.Failures(outcomes)
      {
        assert configs[..i + 1][..i] == configs[..i];
        var result := VerifyConfig(test, configs[i], render);
        assert (outcomes + [result])[..|outcomes|] == outcomes;
        outcomes := outcomes + [result];
        if result.Fail? {
          errors := errors + [result.error];
        }
      }
      assert configs[..|configs|] == configs;
      if |errors| > 0 {
        outcome := Fail(errors[0]);
      } else {
        outcome := Pass;
      }
    }
  }
}
