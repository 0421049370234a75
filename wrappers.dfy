/** Option, for the source's `null` / `undefined` values, and Result, for a step that
    either goes on with a value or stops with an error reply. */
module Wrappers {
  datatype Option<+T> = None | Some(value: T) {
    function GetOr(default: T): T {
      match this
      case Some(v) => v
      case None => default
    }
  }

  datatype Result<+T, +E> = Ok(value: T) | Err(error: E)
}
