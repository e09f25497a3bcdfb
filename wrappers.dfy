/** Optional values, results and pass/fail outcomes: the model's stand-ins for Swift's
    optionals, throwing calls and `AnyPublisher<Void, Error>`. */
module Wrappers {

  datatype Option<+T> = None | Some(value: T) {
    function GetOr(default: T): T {
      match this
      case Some(v) => v
      case None => default
    }
  }

  datatype Result<+T, +E> = Ok(value: T) | Err(error: E)

  /** The outcome of an operation that produces no value: `.success(())` or `.failure(e)`. */
  datatype Outcome<+E> = Pass | Fail(error: E)
}
