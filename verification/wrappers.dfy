/** Failure-carrying datatypes used throughout the model. */
module Wrappers {

  /** A value that may be missing: JavaScript's `null`/`undefined` versus a present value. */
  datatype Option<+T> = None | Some(value: T) {

    /** The wrapped value, or `default` when there is none. */
    function GetOr(default: T): T {
      match this
      case Some(v) => v
      case None => default
    }
  }

  /** The outcome of an operation that may fail: a settled promise. */
  datatype Result<+R, +E> = Success(value: R) | Failure(error: E)
}
