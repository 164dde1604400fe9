/** The two result shapes every module here uses for a nullable value and for a thrown error. */
module Wrappers {
  datatype Option<+T> = None | Some(value: T) {
    /** The source's `??`: the value when there is one, else the fallback. */
    function GetOr(fallback: T): T {
      if Some? then value else fallback
    }
  }

  datatype Result<+T, +E> = Ok(value: T) | Err(error: E)

  function Min(a: int, b: int): int { if a < b then a else b }

  function Max(a: int, b: int): int { if a < b then b else a }
}
