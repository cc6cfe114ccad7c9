/** Failure-compatible result types shared by the other modules. */
module Wrappers {

  /** A value that may be absent, as Python's `None` or a missing attribute. */
  datatype Option<+T> = None | Some(value: T)

  /** The outcome of an operation that can raise instead of returning. */
  datatype Result<+T, +E> = Success(value: T) | Failure(error: E)
}
