/** Option and Result values used wherever the source returns "undefined"/None or raises. */
module Wrappers {

  datatype Option<+T> = None | Some(value: T) {
    function GetOr(default: T): T {
      match this
      case Some(v) => v
      case None => default
    }
  }

  /** Err carries the kind of exception the source raises or the rejection it returns. */
  datatype Result<+T, +E> = Ok(value: T) | Err(error: E)
}
