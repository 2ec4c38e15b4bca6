/** Failure-compatible result types shared by the other modules. */
module Wrappers {

  datatype Option<+T> = None | Some(value: T)

  datatype Result<+T, +E> = Success(value: T) | Failure(error: E)

  /** The outcome of an operation that only changes state: it passed, or failed with an error. */
  datatype Outcome<+E> = Pass | Fail(error: E)
}
