/** Option and Result: the model's stand-ins for JavaScript's `null` and for thrown errors. */
module Wrappers {

  /** A value that may be absent (`T | null` in the source). */
  datatype Option<+T> = None | Some(value: T) {

    /** The value, or `default` when absent (the source's `x || default` on a nullable column). */
    function GetOr(default: T): T {
      if Some? then value else default
    }
  }

  /** The outcome of an operation that either returns a value or fails with a tagged error. */
  datatype Result<+T, +E> = Success(value: T) | Failure(error: E)
}
