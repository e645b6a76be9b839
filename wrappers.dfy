/** Option and Result, the two failure-carrying datatypes the model uses. */
module Wrappers {

  /** Ruby's nil and Swift's Optional: a value or nothing. */
  datatype Option<+T> = None | Some(value: T) {

    /** The value, or a default when there is none (Swift's `??`). */
    function GetOr(default: T): T {
      match this
      case Some(v) => v
      case None => default
    }
  }

  /** A computation that either yields a value or fails with an error. */
  datatype Result<+T, +E> = Success(value: T) | Failure(error: E)
}
