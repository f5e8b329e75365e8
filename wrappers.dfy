/** Option and Result, the two failure-carrying shapes used by the model. */
module Wrappers {

  /** A value that may be absent (a field that is `undefined`). */
  datatype Option<+T> = None | Some(value: T)

  /** The outcome of an operation that either completes or rejects. */
  datatype Result<+R, +E> = Success(value: R) | Failure(error: E)
}
