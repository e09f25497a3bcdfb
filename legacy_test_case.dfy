/** Test-case derivation of the older `Sources/SnapshotTest/SnapshotTestCase.swift`: the suite
    is read from the test's source path below the reference root, the name from the XCTest name,
    and the whole multi-configuration verification gets a timeout. */
module LegacyTestCases {
  import opened Wrappers
  import opened Strings
  import TestNames
  import SnapshotKeys

  /** The message of the `XCTFail` when no suite or name can be derived. */
  const ParseFailureMessage: string := "Was not able to parse test suite and name"

  /** Defaults of `verifySnapshot(suffix:size:configs:renderDelay:...)`. */
  const DefaultRenderDelay: real := 0.4
  const DefaultSize: SnapshotKeys.Size := SnapshotKeys.Normal
  const DefaultSuffix: Option<string> := None

  /** The suite: the first "/"-piece of the source path once the reference path is removed. */
  function Suite(file: string, referencePath: string): (r: Option<string>)
    ensures r.Some? ==> r.value != [] && '/' !in r.value
  {
    var pieces := Split(ReplacingOccurrences(file, referencePath, ""), '/');
    if pieces == [] then None else
      assert pieces[0] in pieces;
      Some(pieces[0])
  }

  /** `getTestCase(file:)`: suite and name, or none when either cannot be derived. */
  function GetTestCase(file: string, referencePath: string, testName: string): (r: Option<(string, string)>)
    ensures r.None? <==> Suite(file, referencePath).None? || TestNames.NameTokens(testName) == []
    ensures r.Some? ==> r.value.0 == Suite(file, referencePath).value
    ensures r.Some? ==> r.value.1 == TestNames.GetTestCaseName(testName)
  {
    var testCase := TestNames.NameTokens(testName);
    match Suite(file, referencePath)
    case None => None
    case Some(suite) =>
      if testCase == [] then None else Some((suite, TestNames.FirstAndLast(testCase)))
  }

  /** A test file stored as `<referencePath>/<suite>/...` belongs to `suite`, provided the
      reference path does not occur again later in the path. */
  lemma SuiteIsFolderBelowReferencePath(referencePath: string, suite: string, rest: string)
    requires referencePath != [] && suite != [] && '/' !in suite
    requires !Occurs("/" + suite + "/" + rest, referencePath)
    ensures Suite(referencePath + "/" + suite + "/" + rest, referencePath) == Some(suite)
  {
    var tail := "/" + suite + "/" + rest;
    assert referencePath + "/" + suite + "/" + rest == referencePath + tail;
    RemovingLeadingPattern(referencePath, tail);
    LeadingPiece(suite, rest);
  }

  lemma LeadingPiece(suite: string, rest: string)
    requires suite != [] && '/' !in suite
    ensures Split("/" + suite + "/" + rest, '/') == [suite] + Split(rest, '/')
  {
    assert "/" + suite + "/" + rest == [] + ['/'] + (suite + ['/'] + rest);
    SplitAppend([], suite + ['/'] + rest, '/');
    SplitAppend(suite, rest, '/');
    SplitSinglePiece(suite, '/');
  }

  /** `TimeInterval(10 * configs.count) * renderDelay`, where `count` is the `[Config]`
      extension: ten render delays per configuration, times the number of configurations. */
  function Timeout(configs: seq<SnapshotKeys.Config>, renderDelay: real): (t: real)
    ensures t == (10 * |configs| * |configs|) as real * renderDelay
  {
    (10 * SnapshotKeys.Count(configs)) as real * renderDelay
  }

  /** With the default configurations and delay the timeout is 16 seconds, not the 8 that ten
      delays per configuration would give. */
  lemma DefaultTimeout()
    ensures Timeout(SnapshotKeys.Default(), DefaultRenderDelay) == 16.0
  {
  }

  /** What `verifySnapshot` does before any rendering: fail the test, or run the verification
      of a test case with a timeout. */
  datatype Verification =
    | ParseFailure(message: string)
    | Run(test: SnapshotKeys.TestCase, configs: seq<SnapshotKeys.Config>, timeout: real)

  function VerifySnapshot(file: string, referencePath: string, testName: string,
                          suffix: Option<string>, size: SnapshotKeys.Size,
                          configs: seq<SnapshotKeys.Config>, renderDelay: real): (r: Verification)
    ensures r.ParseFailure? <==> GetTestCase(file, referencePath, testName).None?
    ensures r.ParseFailure? ==> r.message == ParseFailureMessage
    ensures r.Run? ==>
      var (suite, name) := GetTestCase(file, referencePath, testName).value;
      && r.test == SnapshotKeys.TestCase(suite, name, suffix, size, renderDelay)
      && r.configs == configs
      && r.timeout == Timeout(configs, renderDelay)
  {
    match GetTestCase(file, referencePath, testName)
    case None => ParseFailure(ParseFailureMessage)
    case Some((suite, name)) =>
      Run(SnapshotKeys.TestCase(suite, name, suffix, size, renderDelay), configs, Timeout(configs, renderDelay))
  }
}
