/** Failure-carrying return values, standing in for the source's thrown errors. */
module Wrappers {

  datatype Option<+T> = None | Some(value: T)

  datatype Result<+T, +E> = Success(value: T) | Failure(error: E)

  /** A check that either passes or fails with an error (a `void` function that may throw). */
  datatype Outcome<+E> = Pass | Fail(error: E)
}
