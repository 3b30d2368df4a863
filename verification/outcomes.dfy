/** Failure-carrying results used in place of the exceptions the generator raises. */
module Outcomes {

  /** A value or the reason it could not be produced. */
  datatype Result<+T, +E> = Success(value: T) | Failure(error: E)

  /** A value that may be absent, as Python's `None`. */
  datatype Option<+T> = None | Some(value: T)
}
