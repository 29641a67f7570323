/** Failure-carrying values used in place of Go's `(value, error)` pairs and nil pointers. */
module Wrappers {

  datatype Option<+T> = None | Some(value: T) {
    function GetOr(default: T): T {
      match this
      case Some(v) => v
      case None => default
    }
  }

  /** A value or the error returned beside it. */
  datatype Result<+T, +E> = Success(value: T) | Failure(error: E)

  /** An error-only return: `nil` or an error. */
  datatype Outcome<+E> = Pass | Fail(error: E)
}
