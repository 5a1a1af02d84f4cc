/** Option and Result, shared by the rest of the model. */
module Wrappers {

  /** A value that may be missing: a dictionary lookup, a file that may not exist. */
  datatype Option<+T> = None | Some(value: T)

  /** The outcome of an operation that may raise. */
  datatype Result<+R, +E> = Success(value: R) | Failure(error: E)
}
