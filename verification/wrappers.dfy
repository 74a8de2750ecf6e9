/** Option and Result values for the JavaScript `undefined`/`null` and the rejected promises of the app. */
module Wrappers {

  /** A value that may be missing: `undefined` or `null` on the JavaScript side. */
  datatype Option<+T> = None | Some(value: T) {
    function GetOr(default: T): T {
      match this
      case Some(v) => v
      case None => default
    }
  }

  /** The outcome of an operation that can throw: the value, or the error it throws. */
  datatype Result<+R, +E> = Success(value: R) | Failure(error: E)
}
