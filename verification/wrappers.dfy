/** Optional and failure-carrying values shared by the whole model. */
module Wrappers {

  /** Python's `None` next to a present value. */
  datatype Option<+T> = None | Some(value: T)

  /** The outcome of an operation that may raise: `Failure` carries the
      exception the Python code would raise. */
  datatype Result<+T, +E> = Success(value: T) | Failure(error: E)
}
