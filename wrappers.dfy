/** Option and Result, the failure-carrying values used throughout the model. */
module Wrappers {

  datatype Option<+T> = None | Some(value: T)

  /** A value, or the exception the Python layer would raise instead. */
  datatype Result<+R, +E> = Success(value: R) | Failure(error: E)
}
