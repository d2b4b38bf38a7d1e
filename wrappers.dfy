/** Failure-compatible wrappers shared by the modules of this model. */
module Wrappers {

  /** A value that may be absent; stands for a nullable reference. */
  datatype Option<+T> = None | Some(value: T)

  /** The outcome of an operation whose source form throws an exception. */
  datatype Result<+R, +E> = Success(value: R) | Failure(error: E)
}
