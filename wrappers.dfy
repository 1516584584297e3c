/** The optional-value and success-or-error datatypes used across the nutrient engine. */
module Wrappers {

  /** A value that may be missing, as returned by a lookup. */
  datatype Option<+T> = None | Some(value: T)

  /** The outcome of an operation that may raise an error. */
  datatype Result<+T, +E> = Success(value: T) | Failure(error: E)
}
