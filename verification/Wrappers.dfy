/** Wrappers used across the model. */
module Wrappers {

  /** A value that may be missing (JavaScript's null/undefined, or NaN from parseInt). */
  datatype Option<+T> = None | Some(value: T) {
    /** The value, or the default when there is none. */
    function GetOr(default: T): T {
      match this
      case Some(v) => v
      case None => default
    }
  }

  /** The outcome of an operation that can fail with an error of type E. */
  datatype Result<+R, +E> = Success(value: R) | Failure(error: E)
}
