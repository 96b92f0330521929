/** Error-carrying results: the model returns these where the source throws. */
module Wrappers {

  datatype Option<+T> = None | Some(value: T)

  /** A value, or the error that the source would have thrown. */
  datatype Result<+R, +E> = Success(value: R) | Failure(error: E)

  /** Completion of a `void` operation, or the error it would have thrown. */
  datatype Outcome<+E> = Pass | Fail(error: E)
}
