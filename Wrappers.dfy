/** Option and Result: the model's stand-ins for C# `null` and for thrown exceptions. */
module Wrappers {

  /** A possibly-null reference: `None` is C# `null`. */
  datatype Option<+T> = None | Some(value: T) {
    function GetOr(default: T): T {
      match this
      case Some(v) => v
      case None => default
    }
  }

  /** The outcome of an operation that may throw: `Failure` carries the exception kind. */
  datatype Result<+R, +E> = Success(value: R) | Failure(error: E)
}
