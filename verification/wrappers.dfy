/** Optional values and success/failure results, as used by every other module. */
module Wrappers {

  /** A value that may be absent; stands for JavaScript's `null`/`undefined` alternatives. */
  datatype Option<+T> = None | Some(value: T) {

    /** The value if present, otherwise `default`. */
    function GetOr(default: T): T
    {
      match this
      case Some(v) => v
      case None => default
    }
  }

  /** The outcome of an operation that either produces a value or fails with an error. */
  datatype Result<+T, +E> = Success(value: T) | Failure(error: E)
}
