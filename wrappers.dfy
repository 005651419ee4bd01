/** Option and Result values for the model's error paths. */
module Wrappers {

  datatype Option<+T> = None | Some(value: T)

  /** The outcome of an operation the source may abort with an exception. */
  datatype Result<+R, +E> = Success(value: R) | Failure(error: E)
}
