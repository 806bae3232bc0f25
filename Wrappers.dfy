/** Option and Result values used throughout the model. */
module Wrappers {

  /** Python's `None`-or-value, and "key present or absent" in a dictionary. */
  datatype Option<+T> = None | Some(value: T) {
    function GetOr(default: T): T {
      match this
      case Some(v) => v
      case None => default
    }
  }

  /** A computation that either yields a value or raises an exception. */
  datatype Result<+T, +E> = Ok(value: T) | Err(error: E)
}
