/** Optional values and success-or-error results, used wherever the system
    has a nullable column or raises an HTTP error. */
module Wrappers {

  /** A nullable value: `None` plays the role of SQL NULL / Python `None` / JS `null`. */
  datatype Option<+T> = None | Some(value: T) {

    /** The value, or `default` when absent (Python's `x if x is not None else default`). */
    function GetOr(default: T): T {
      match this
      case Some(v) => v
      case None => default
    }
  }

  /** The outcome of an operation that either succeeds or raises an error. */
  datatype Result<+R, +E> = Success(value: R) | Failure(error: E)
}
