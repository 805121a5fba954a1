/** Failure-carrying datatypes shared by the rest of the model. */
module Wrappers {

  /** Python's `x | None`: a value that may be absent. */
  datatype Option<+T> = None | Some(value: T)

  /** Either a value or an error message; stands in for a raised exception. */
  datatype Result<+R, +E> = Success(value: R) | Failure(error: E)
}
