/** Failure-carrying result types used across the model. */
module Wrappers {

  datatype Option<+T> = None | Some(value: T)

  datatype Result<+T, +E> = Success(value: T) | Failure(error: E)

  /** The outcome of an operation that only succeeds or fails (a `void` method that may throw). */
  datatype Outcome<+E> = Pass | Fail(error: E)
}
