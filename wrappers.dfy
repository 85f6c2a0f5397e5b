/** Failure-compatible wrappers: Python's `None` and raised exceptions become values. */
module Wrappers {

  datatype Option<+T> = None | Some(value: T)

  /** The outcome of a computation that either yields a value or raises `error`. */
  datatype Result<+R, +E> = Success(value: R) | Failure(error: E)
}
