/** Option and Result values standing for JavaScript's `undefined` and for thrown errors. */
module Wrappers {

  /** An optional value; `None` plays the part of `undefined`. */
  datatype Option<+T> = None | Some(value: T)

  /** The outcome of an operation that may throw: `Failure` carries the thrown error. */
  datatype Result<+R, +E> = Success(value: R) | Failure(error: E)
}
