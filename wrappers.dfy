/** Failure-compatible values shared by the other modules. */
module Wrappers {

  /** A value that may be missing. */
  datatype Option<+T> = None | Some(value: T)

  /** The outcome of an operation that either produces a value or raises an error. */
  datatype Result<+T, +E> = Ok(value: T) | Err(error: E)

  /** The outcome of an operation that produces nothing or raises an error. */
  datatype Outcome<+E> = Pass | Fail(error: E)
}
