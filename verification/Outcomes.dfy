/** The two failure-carrying results used throughout the model: a thrown failure
    becomes a `Failure` or a `Fail` carrying its error. */
module Outcomes {
  datatype Option<+T> = None | Some(value: T)

  datatype Result<+T, +E> = Success(value: T) | Failure(error: E)

  datatype Outcome<+E> = Pass | Fail(error: E)
}
