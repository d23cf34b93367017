/** Failure-carrying values: a Python call either returns a value or raises. */
module Wrappers {

  /** A value that may be absent (Python's None). */
  datatype Option<+T> = None | Some(value: T)

  /** The outcome of a call that may raise: its value, or the message of the exception. */
  datatype Result<+T, +E> = Success(value: T) | Failure(error: E)
}
