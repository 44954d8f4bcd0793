/** Optional values and results with an error, shared by every module of the model. */
module Wrappers {

  /** A value that may be absent (JavaScript's `undefined`/`null`). */
  datatype Option<+T> = None | Some(value: T) {
    /** The value, or `default` when absent (JavaScript's `x ?? default`). */
    function GetOr(default: T): (v: T) {
      match this
      case Some(v) => v
      case None => default
    }
  }

  /** The outcome of an operation that may fail with an error message. */
  datatype Result<+T, +E> = Success(value: T) | Failure(error: E)
}
