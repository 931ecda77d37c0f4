/** Failure-carrying datatypes shared by the rest of the model. */
module Wrappers {

  /** Python's `None` or a value. */
  datatype Option<+T> = None | Some(value: T)

  /** A value, or the error the source would have raised instead of returning. */
  datatype Result<+R, +E> = Success(value: R) | Failure(error: E)
}
