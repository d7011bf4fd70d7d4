/** Failure-carrying results for the engine's Python exceptions. */
module Wrappers {

  datatype Option<+T> = None | Some(value: T)

  datatype Result<+R, +E> = Success(value: R) | Failure(error: E)

  /** A result that carries no value: the outcome of a procedure that may raise. */
  datatype Outcome<+E> = Pass | Fail(error: E)
}
