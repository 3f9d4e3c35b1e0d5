/** Failure-carrying wrappers used throughout the model. */
module Wrappers {

  /** Python's `None` or a present value. */
  datatype Option<+T> = None | Some(value: T) {
    function GetOr(default: T): T {
      match this
      case Some(v) => v
      case None => default
    }
  }

  /** A computed value, or the exception that ended the computation. */
  datatype Result<+R, +E> = Success(value: R) | Failure(error: E)

  /** A step that either went through or raised. */
  datatype Outcome<+E> = Pass | Fail(error: E)
}
