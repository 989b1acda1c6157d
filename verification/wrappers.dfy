/** Optional values and error-carrying results, standing in for Ruby's nil and
    for the exceptions the model's operations can raise. */
module Wrappers {

  /** A value that may be absent: `None` plays the part of Ruby's nil. */
  datatype Option<+T> = None | Some(value: T)

  /** The outcome of an operation that either produces a value or fails. */
  datatype Result<+T, +E> = Success(value: T) | Failure(error: E)
}
