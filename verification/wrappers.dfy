/** The option and result types used across the model. */
module Wrappers {

  /** A value that may be absent: a missing dict key, a unit with no plant. */
  datatype Option<+T> = None | Some(value: T)

  /** The outcome of an operation that the source lets raise an exception. */
  datatype Result<+R, +E> = Success(value: R) | Failure(error: E)
}
