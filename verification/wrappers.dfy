/** Option and Result values used throughout the model in place of Python's
    `None` returns and raised exceptions. */
module Wrappers {

  /** A value that may be absent; `None` plays the role of Python's `None`. */
  datatype Option<+T> = None | Some(value: T)

  /** The outcome of an operation that can raise: `Failure` carries the
      exception the Python code would raise. */
  datatype Result<+T, +E> = Success(value: T) | Failure(error: E)
}
