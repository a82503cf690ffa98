/** Failure-carrying datatypes used to model the Python exceptions that the
    processors raise and catch. */
module Wrappers {

  /** A value that may be absent; models an optional argument or an
      attribute that `hasattr` may not find. */
  datatype Option<+T> = None | Some(value: T) {
    function GetOr(default: T): T {
      match this
      case Some(v) => v
      case None => default
    }
  }

  /** Either a value or the exception that was raised instead. */
  datatype Result<+R, +E> = Success(value: R) | Failure(error: E)

  /** Success without a value, or the exception that was raised. */
  datatype Outcome<+E> = Pass | Fail(error: E)
}
