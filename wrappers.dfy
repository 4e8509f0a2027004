/** The optional-value and value-or-error wrappers shared by every module of the model. */
module Wrappers {

  /** A value that may be absent: Python's `None` or a missing artifact. */
  datatype Option<+T> = None | Some(value: T)

  /** The outcome of an operation that either returns a value or raises/returns an error. */
  datatype Result<+R, +E> = Success(value: R) | Failure(error: E)
}
