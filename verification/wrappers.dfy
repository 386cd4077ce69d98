/** Option and Result: an absent Python value (None) and a Python exception turned into a value. */
module Wrappers {

  datatype Option<+T> = None | Some(value: T) {
    /** The wrapped value, or `default` when there is none (Python's `d.get(key, default)`). */
    function GetOr(default: T): T {
      match this
      case Some(v) => v
      case None => default
    }
  }

  /** The value of a computation, or the text of the exception it raised (`str(e)` in Python). */
  datatype Result<+T> = Ok(value: T) | Err(error: string)
}
