/** Failure-compatible wrappers shared by the whole model: an optional value
    (JavaScript `null` versus a value) and the result of an operation that may
    throw. */
module Wrappers {

  /** `None` stands for JavaScript `null`. */
  datatype Option<+T> = None | Some(value: T)

  /** `Failure` stands for an exception thrown (or a rejected promise). */
  datatype Result<+R, +E> = Success(value: R) | Failure(error: E)
}
