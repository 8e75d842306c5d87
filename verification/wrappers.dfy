/** Failure-carrying wrappers shared by the tracker modules. */
module Wrappers {

  /** A value that may be absent, standing in for JavaScript's `undefined`. */
  datatype Option<+T> = None | Some(value: T)

  /** The outcome of an operation that can be refused with an error value. */
  datatype Result<+T, +E> = Success(value: T) | Failure(error: E)
}
