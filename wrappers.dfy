/** Failure-carrying results: what a Ruby method that may raise returns in this model. */
module Wrappers {

  datatype Option<+T> = None | Some(value: T)

  /** The value a constructor builds, or the exception it raises instead. */
  datatype Result<+R, +E> = Success(value: R) | Failure(error: E)

  /** The outcome of a check that returns nothing on success and raises on failure. */
  datatype Outcome<+E> = Pass | Fail(error: E)
}
