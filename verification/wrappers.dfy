/** The two ways a call in this model can end without a plain value:
    `Option` stands for Python's "a number or `None`" slots (the validator's
    parsed number, the secret in the statistics), and `Result` for a call
    that either returns or raises one of a closed set of exceptions. */
module Wrappers {

  /** Python's `None`, or a value. */
  datatype Option<T> = None | Some(value: T)

  /** A returned value, or the exception raised instead. */
  datatype Result<R, E> = Success(value: R) | Failure(error: E)
}
