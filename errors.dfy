/** The public `SnapshotError` of `SnapshotError.swift` and `Error.asSnapshotError()`. Swift's
    open `Error` existential is modelled as a closed sum: an error is either a `SnapshotError`
    or some other error, known only by its description. */
module SnapshotErrors {

  datatype AnyError = Snapshot(error: SnapshotError) | Foreign(description: string)

  datatype SnapshotError =
    | LoadSnapshot
    | InvalidContext
    | TakeSnapshot
    | SaveSnapshot(saveCause: AnyError)
    | CopySnapshot(copyCause: AnyError)
    | DeleteSnapshot(deleteCause: AnyError)
    | ImageData
    | ReferenceImageDoesNotExist
    | CreateFolder(folderCause: AnyError)
    | CreateView
    | DidRecord
    | Comparison(comparisonCause: AnyError)
    | ReferenceImageNotEqual(diff: real)
    | CropSnapshot
    | Timeout(message: string)
    | Unknown(cause: AnyError)

  /** `asSnapshotError()`: a `SnapshotError` is returned as it is, anything else is wrapped. */
  function AsSnapshotError(e: AnyError): (r: SnapshotError)
    ensures e.Snapshot? ==> r == e.error
    ensures e.Foreign? ==> r == Unknown(e)
    ensures r.Unknown? <==> e.Foreign? || e.error.Unknown?
  {
    match e
    case Snapshot(error) => error
    case Foreign(_) => Unknown(e)
  }

  /** Converting the converted error again changes nothing. */
  lemma AsSnapshotErrorIdempotent(e: AnyError)
    ensures AsSnapshotError(Snapshot(AsSnapshotError(e))) == AsSnapshotError(e)
  {
  }

  /** The conversion never loses the original: it is recovered from the result. */
  lemma AsSnapshotErrorInjective(e1: AnyError, e2: AnyError)
    ensures AsSnapshotError(e1) == AsSnapshotError(e2) <==>
      e1 == e2 || (e1.Foreign? && e2 == Snapshot(Unknown(e1))) || (e2.Foreign? && e1 == Snapshot(Unknown(e2)))
  {
  }
}
