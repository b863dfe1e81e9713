/** Option and Result: the partial-function and error-return shapes used by the model. */
module Wrappers {

  /** A value that may be missing: an absent query parameter, or a token that does not parse. */
  datatype Option<+T> = None | Some(value: T)

  /** The outcome of an operation that either returns a value or raises an error. */
  datatype Result<+T, +E> = Success(value: T) | Failure(error: E)
}
