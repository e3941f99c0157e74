/** Option and Result values used for the error paths of the reporting job. */
module Wrappers {

  datatype Option<+T> = None | Some(value: T)

  /** A computation that either produced a value or raised an error. */
  datatype Result<+R, +E> = Success(value: R) | Failure(error: E)
}
