/** Optional values and results with an error, as used throughout the model. */
module Wrappers {

  /** A value that may be absent: the model of a JavaScript `T | undefined`. */
  datatype Option<+T> = None | Some(value: T)

  /** The outcome of a computation that may throw. */
  datatype Result<+T, +E> = Success(value: T) | Failure(error: E)
}
