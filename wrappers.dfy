/** Option and Result, the two failure-carrying shapes the rest of the model uses. */
module Wrappers {

  /** A value that may be absent: JavaScript's `undefined` or `null`. */
  datatype Option<+T> = None | Some(value: T)

  /** A computation that either yields a value or throws an exception with a message. */
  datatype Result<+T, +E> = Success(value: T) | Failure(error: E)
}
