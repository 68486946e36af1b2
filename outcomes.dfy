/** Failure-carrying values shared by the modules of the model. */
module Outcomes {

  /** A value that may be absent (Python's `None`). */
  datatype Option<+T> = None | Some(value: T)

  /** A computation that either yields a value or stops with an exception. */
  datatype Result<+R, +E> = Success(value: R) | Failure(error: E)
}
