/** Option and Result datatypes used throughout the model. */
module Wrappers {

  datatype Option<+T> = None | Some(value: T)

  /** A value or the error that the Go code returns in its place. */
  datatype Result<+R, +E> = Success(value: R) | Failure(error: E)
}
