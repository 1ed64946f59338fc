/** Failure-compatible wrappers shared by the whole model. */
module Wrappers {

  /** A value that may be absent: an omitted JSON field or an `undefined` argument. */
  datatype Option<+T> = None | Some(value: T) {

    /** The wrapped value, or `default` when absent. */
    function GetOr(default: T): T {
      match this
      case Some(v) => v
      case None => default
    }
  }

  /** The outcome of an operation that either succeeds with a value or fails with an error. */
  datatype Result<+T, +E> = Ok(value: T) | Err(error: E)
}
