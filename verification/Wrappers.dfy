/** A value that may be absent, and a computation that may refuse. */
module Wrappers {
  datatype Option<+T> = None | Some(value: T) {
    function GetOr(other: T): T { if None? then other else value }
  }

  datatype Result<+T, +E> = Ok(value: T) | Err(error: E)
}
