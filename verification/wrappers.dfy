/** Failure-carrying results used where the script either yields a value or raises. */
module Wrappers {

  /** A value that may be absent, such as the date a malformed string does not name. */
  datatype Option<+T> = None | Some(value: T)

  /** Either a value or the error that aborted the computation. */
  datatype Result<+R, +E> = Success(value: R) | Failure(error: E)
}
