/** Failure-compatible wrappers used across the model. */
module Wrappers {

  datatype Option<+T> = None | Some(value: T)
  {
    /** The value, or `default` when absent (JavaScript's `x || default` on a
        field whose every present value is truthy). */
    function GetOr(default: T): T
    {
      match this
      case Some(v) => v
      case None => default
    }
  }

  datatype Result<+R, +E> = Success(value: R) | Failure(error: E)

  datatype Outcome<+E> = Pass | Fail(error: E)
}
