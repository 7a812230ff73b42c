/** Option, Result and Outcome values standing in for Python's None and raised exceptions. */
module Wrappers {

  datatype Option<+T> = None | Some(value: T)

  datatype Result<+T, +E> = Success(value: T) | Failure(error: E)

  /** The outcome of a call that either completes or raises before changing anything. */
  datatype Outcome<+E> = Pass | Fail(error: E)
}
