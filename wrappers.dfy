/** Option and Result values for the source's `None` returns and caught exceptions. */
module Wrappers {

  datatype Option<+T> = None | Some(value: T) {
    function GetOr(default: T): T {
      match this
      case Some(v) => v
      case None => default
    }
  }

  /** A computation that either yields a value or fails with an exception message. */
  datatype Result<+T> = Ok(value: T) | Err(message: string)
}
