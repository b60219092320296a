/** Option and Result, the two shapes every operation below uses for
    "absent" (JavaScript `undefined`/`null`, Python `None`) and for
    "threw an Error with this message". */
module Wrappers {

  datatype Option<+T> = None | Some(value: T) {
    function GetOr(default: T): T {
      match this
      case Some(v) => v
      case None => default
    }
  }

  /** An operation that either produced a value or threw. The error is the
      thrown message or, for database failures, a structured error. */
  datatype Result<+T, +E> = Ok(value: T) | Err(error: E)
}
