/** Failure-compatible wrappers shared by the model. */
module Wrappers {

  /** A value that may be absent; in the JavaScript model `None` is `undefined`. */
  datatype Option<+T> = None | Some(value: T) {

    function GetOr(default: T): T {
      match this
      case Some(v) => v
      case None => default
    }
  }

  /** The outcome of an operation that either returns a value or throws / rejects. */
  datatype Result<+R, +E> = Success(value: R) | Failure(error: E)
}
