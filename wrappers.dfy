/** Optional values and results with an error, as used throughout the model. */
module Wrappers {

  /** A value that may be absent (JavaScript's `undefined`). */
  datatype Option<T> = None | Some(value: T)

  /** The outcome of a call that may throw: a value, or the error it threw. */
  datatype Result<T, E> = Ok(value: T) | Err(error: E)
}
