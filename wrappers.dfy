/** Option and Result, the two failure-carrying shapes every controller below returns. */
module Wrappers {

  /** A value that may be absent: a JSON field that was not sent, or a nullable column. */
  datatype Option<+T> = None | Some(value: T) {
    function GetOr(default: T): T {
      match this
      case Some(v) => v
      case None => default
    }
  }

  /** The outcome of an operation that either produces a value or fails with an error kind. */
  datatype Result<+R, +E> = Ok(value: R) | Err(error: E)
}
