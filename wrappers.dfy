/** Failure-compatible result types used across the model. */
module Wrappers {

  /** A value that may be missing (JavaScript's `undefined`/`null`). */
  datatype Option<+T> = None | Some(value: T)

  /** The result of an operation that returns a value or throws. */
  datatype Result<+R, +E> = Success(value: R) | Failure(error: E)

  /** The result of an operation that returns nothing or throws. */
  datatype Outcome<+E> = Pass | Fail(error: E)
}
