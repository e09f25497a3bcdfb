/** `LaunchEnvironment` of `LaunchEnvironment.swift`: the four settings, each a lookup in the
    process environment (a map) or its arguments (a sequence) with a default. `Double(_:)` is
    the parameter `parseDouble`. */
module LaunchEnvironment {
  import opened Wrappers

  const ReferencePathKey: string := "snapshotReferences"
  const FailurePathKey: string := "snapshotFailures"
  const ToleranceKey: string := "snapshotTolerance"
  const RecordModeKey: string := "-RecordingSnapshot"

  const DefaultReferencePath: string := "."
  const DefaultFailurePath: string := "../_Failures"

  /** The value set for `key`, or `default` when it is not set. */
  function Lookup(environment: map<string, string>, key: string, default: string): (r: string)
    ensures key in environment ==> r == environment[key]
    ensures key !in environment ==> r == default
  {
    if key in environment then environment[key] else default
  }

  function ReferencePath(environment: map<string, string>): string {
    Lookup(environment, ReferencePathKey, DefaultReferencePath)
  }

  function FailurePath(environment: map<string, string>): string {
    Lookup(environment, FailurePathKey, DefaultFailurePath)
  }

  function RecordMode(arguments: seq<string>): (r: bool)
    ensures r <==> exists i :: 0 <= i < |arguments| && arguments[i] == RecordModeKey
  {
    RecordModeKey in arguments
  }

  function Tolerance(environment: map<string, string>, parseDouble: string -> Option<real>): (t: real)
    ensures ToleranceKey !in environment ==> t == 0.0
    ensures ToleranceKey in environment && parseDouble(environment[ToleranceKey]).None? ==> t == 0.0
    ensures ToleranceKey in environment && parseDouble(environment[ToleranceKey]).Some? ==>
              t == parseDouble(environment[ToleranceKey]).value
  {
    if ToleranceKey !in environment then 0.0
    else match parseDouble(environment[ToleranceKey])
      case None => 0.0
      case Some(tolerance) => tolerance
  }

  /** Each path setting reads only its own key: setting one leaves the other and the
      tolerance as they were, and unset paths fall back to the defaults. */
  lemma SettingsAreIndependent(environment: map<string, string>, value: string, parseDouble: string -> Option<real>)
    ensures ReferencePath(environment[ReferencePathKey := value]) == value
    ensures FailurePath(environment[ReferencePathKey := value]) == FailurePath(environment)
    ensures FailurePath(environment[FailurePathKey := value]) == value
    ensures ReferencePath(environment[FailurePathKey := value]) == ReferencePath(environment)
    ensures Tolerance(environment[ReferencePathKey := value], parseDouble) == Tolerance(environment, parseDouble)
    ensures ReferencePath(map[]) == "." && FailurePath(map[]) == "../_Failures"
  {
  }
}
