/** Optional values and success-or-error results, as used by the quotes service. */
module Wrappers {

  /** A value that may be absent (an `undefined` field of a request body or query). */
  datatype Option<+T> = None | Some(value: T)

  /** The outcome of a service call: the value it returns, or the exception it throws. */
  datatype Result<+T, +E> = Success(value: T) | Failure(error: E)
}
