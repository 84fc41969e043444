/** Failure-carrying datatypes shared by the inventory model. */
module Wrappers {

  /** A value that may be absent: a nullable column or an omitted form field. */
  datatype Option<+T> = None | Some(value: T)

  /** The outcome of an operation that either succeeds with a value or fails with an error. */
  datatype Result<+R, +E> = Success(value: R) | Failure(error: E)
}
