/** Option, Result and Outcome: the error-carrying values that stand in for
    Python's `None` and for raised exceptions throughout the model. */
module Wrappers {

  datatype Option<+T> = None | Some(value: T) {
    function GetOr(default: T): T {
      match this
      case Some(v) => v
      case None => default
    }
  }

  /** A call that either returns `value` or raises `error`. */
  datatype Result<+R, +E> = Success(value: R) | Failure(error: E)

  /** A call that returns nothing (`-> None`) or raises `error`. */
  datatype Outcome<+E> = Pass | Fail(error: E)
}
