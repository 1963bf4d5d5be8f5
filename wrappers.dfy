/** The optional-value and success-or-failure datatypes shared by the model. */
module Wrappers {

  /** An optional value; `None` stands for an absent or null value. */
  datatype Option<+T> = None | Some(value: T)

  /** The outcome of an operation that either yields a value or fails with a reason. */
  datatype Result<+R, +E> = Success(value: R) | Failure(error: E)
}
