/** Test naming of `Sources/SnapshotTestCase/SnapshotTestCase.swift`: the normalisation of an
    XCTest method name into a snapshot name, the folder of the test's source file, and the
    `TestCase` that `verifySnapshot` hands to the runner. The same name pipeline is used by the
    older `SnapshotTest` module. */
module TestNames {
  import opened Strings

  /** `TimeInterval.snapshotRenderDelay`. */
  const SnapshotRenderDelay: real := 0.4

  /** The text transformations of the pipeline, in order: drop every "-[", every "]", every
      "Tests", then the first "test". */
  function Normalised(name: string): string {
    var withoutOpen := ReplacingOccurrences(name, "-[", "");
    var withoutClose := ReplacingOccurrences(withoutOpen, "]", "");
    var withoutSuffix := ReplacingOccurrences(withoutClose, "Tests", "");
    ReplacingFirst(withoutSuffix, "test", "")
  }

  /** The space-separated words of the normalised name. */
  function NameTokens(name: string): (tokens: seq<string>)
    ensures forall t :: t in tokens ==> t != [] && ' ' !in t && ']' !in t
  {
    var text := Normalised(name);
    NormalisedHasNoBracket(name);
    Split(text, ' ')
  }

  lemma NormalisedHasNoBracket(name: string)
    ensures ']' !in Normalised(name)
  {
    var withoutOpen := ReplacingOccurrences(name, "-[", "");
    var withoutClose := ReplacingOccurrences(withoutOpen, "]", "");
    var withoutSuffix := ReplacingOccurrences(withoutClose, "Tests", "");
    RemovingCharacterRemovesAll(withoutOpen, ']');
    RemovingKeepsCharacters(withoutClose, "Tests", ']');
    RemovingFirstKeepsCharacters(withoutSuffix, "test", ']');
  }

  /** The first token alone when it is also the last, otherwise first and last joined by "_";
      middle tokens are dropped. */
  function FirstAndLast(tokens: seq<string>): (r: string)
    requires tokens != []
    ensures tokens[0] == tokens[|tokens| - 1] ==> r == tokens[0]
    ensures tokens[0] != tokens[|tokens| - 1] ==> r == tokens[0] + "_" + tokens[|tokens| - 1]
  {
    var first, last := tokens[0], tokens[|tokens| - 1];
    if first == last then first else Prepending(last, first + "_")
  }

  /** `getTestCaseName(_:)`: a name whose normalised form is blank is returned as it was;
      otherwise the first word, or the first and last words joined by "_" when they differ. The
      derived name holds no space and no "]". */
  function GetTestCaseName(name: string): (r: string)
    ensures (forall j :: 0 <= j < |Normalised(name)| ==> Normalised(name)[j] == ' ') ==> r == name
    ensures var tokens := NameTokens(name);
      tokens != [] ==>
        && ' ' !in r && ']' !in r
        && (tokens[0] == tokens[|tokens| - 1] ==> r == tokens[0])
        && (tokens[0] != tokens[|tokens| - 1] ==> r == tokens[0] + "_" + tokens[|tokens| - 1])
  {
    var testCase := NameTokens(name);
    NoWordsIffBlank(name);
    if testCase == [] then name
    else
      assert testCase[0] in testCase && testCase[|testCase| - 1] in testCase;
      FirstAndLast(testCase)
  }

  /** The name falls back to the input exactly when the normalised name is blank. */
  lemma NoWordsIffBlank(name: string)
    ensures NameTokens(name) == [] <==> forall j :: 0 <= j < |Normalised(name)| ==> Normalised(name)[j] == ' '
  {
    SplitEmptyIff(Normalised(name), ' ');
  }

  /** `URL.deletingLastPathComponent()` on a file path: everything up to and including the
      last "/". */
  function DeletingLastPathComponent(path: string): (r: string)
    decreases |path|
    ensures r <= path
    ensures r == [] || r[|r| - 1] == '/'
    ensures '/' !in path[|r|..]
  {
    if path == [] then []
    else if path[|path| - 1] == '/' then path
    else
      var r := DeletingLastPathComponent(path[..|path| - 1]);
      assert path[|r|..] == path[..|path| - 1][|r|..] + [path[|path| - 1]];
      r
  }

  /** The folder of `<dir>/<file>` is `<dir>/`. */
  lemma {:induction false} DeletingLastPathComponentOfFile(dir: string, file: string)
    requires '/' !in file
    decreases |file|
    ensures DeletingLastPathComponent(dir + "/" + file) == dir + "/"
  {
    if file != [] {
      var path := dir + "/" + file;
      assert path[..|path| - 1] == dir + "/" + file[..|file| - 1];
      assert path[|path| - 1] == file[|file| - 1];
      DeletingLastPathComponentOfFile(dir, file[..|file| - 1]);
    }
  }

  /** `Snapshot.TestCase` of this API, without the view-controller factory. */
  datatype TestCase = TestCase(filePath: string, name: string, renderDelay: real)

  /** How `verifySnapshot(name:config:renderDelay:file:...)` builds its `TestCase`. */
  function AssembleTestCase(name: string, renderDelay: real, file: string): (t: TestCase)
    ensures t.filePath == DeletingLastPathComponent(file)
    ensures t.name == GetTestCaseName(name)
    ensures t.renderDelay == renderDelay
  {
    TestCase(DeletingLastPathComponent(file), GetTestCaseName(name), renderDelay)
  }
}
