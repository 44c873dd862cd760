/** Small failure-carrying datatypes shared by the other modules. */
module Wrappers {

  /** A value that may be absent: a pandas NaN cell, a missing JSON key. */
  datatype Option<+T> = None | Some(value: T) {
    function GetOr(default: T): T {
      match this
      case Some(v) => v
      case None => default
    }
  }

  /** The outcome of a step that may raise. */
  datatype Result<+T, +E> = Ok(value: T) | Err(error: E)
}
