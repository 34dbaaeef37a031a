/** Optional values and results with an error, used throughout the model. */
module Wrappers {

  /** A value that may be absent; stands for Python's `None` where a value is optional. */
  datatype Option<+T> = None | Some(value: T)

  /** The outcome of an operation that may raise: a value, or the error it raised. */
  datatype Result<+T, +E> = Success(value: T) | Failure(error: E)
}
