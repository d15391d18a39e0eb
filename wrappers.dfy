/** Option and Result, the two failure-compatible wrappers used across the model. */
module Wrappers {

  /** `undefined` / absent value (None) or a present one (Some). */
  datatype Option<+T> = None | Some(value: T) {
    function GetOr(default: T): T {
      match this
      case Some(v) => v
      case None => default
    }
  }

  /** A value, or the message of the `Error` the source throws. */
  datatype Result<+R> = Success(value: R) | Failure(error: string)
}
