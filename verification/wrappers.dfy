/** Optional values and error-carrying results, standing in for JavaScript's
    `undefined` fields and thrown errors. */
module Wrappers {

  /** A value that may be absent (a field the caller left `undefined`). */
  datatype Option<+T> = None | Some(value: T) {

    /** The value, or `default` when absent (JavaScript's `x ?? d`). */
    function GetOr(default: T): T {
      match this
      case Some(v) => v
      case None => default
    }
  }

  /** The outcome of an operation that either produces a value or throws. */
  datatype Result<+T, +E> = Success(value: T) | Failure(error: E)

  /** The outcome of a check that either passes or reports an error. */
  datatype Outcome<+E> = Pass | Fail(error: E)
}
