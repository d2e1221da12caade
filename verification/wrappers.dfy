/** Optional values and error-carrying results, standing in for the source's
    null pointers and Go's `(value, error)` return pairs. */
module Wrappers {

  /** A value that may be absent (a null pointer in C, a nil in Go). */
  datatype Option<+T> = None | Some(value: T) {

    /** The wrapped value, or `default` when absent. */
    function GetOr(default: T): T {
      match this
      case Some(v) => v
      case None => default
    }
  }

  /** Either a value or an error, as Go functions return `(T, error)`. */
  datatype Result<+T, +E> = Success(value: T) | Failure(error: E)

  /** An error with no value, as Go functions return a bare `error`. */
  datatype Outcome<+E> = Pass | Fail(error: E)
}
