/** Failure-carrying results used across the ledger model. */
module Wrappers {

  datatype Option<+T> = None | Some(value: T)

  /** The outcome of an operation that either yields a value or is rejected with a reason. */
  datatype Result<+T, +E> = Success(value: T) | Failure(error: E)
}
