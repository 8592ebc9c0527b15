// Failure-carrying result types shared by the modules of the projection engine.
module Outcomes {

  /** A value that may be missing, such as a calendar date outside the supported range. */
  datatype Option<+T> = None | Some(value: T)

  /** The outcome of a computation that either yields a value or fails with a reason. */
  datatype Result<+T, +E> = Ok(value: T) | Err(error: E)
}
