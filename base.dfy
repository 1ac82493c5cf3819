/** Failure-compatible wrappers shared by every module of the model. */
module Base {

  /** A value that may be absent: JavaScript's `undefined`/`null` versus a present value. */
  datatype Option<+T> = None | Some(value: T)

  /** The outcome of an operation that can throw: the value it returns or the error it throws. */
  datatype Result<+T, +E> = Success(value: T) | Failure(error: E)
}
