/** Option and Result, used for the source's `undefined` fields and its error returns. */
module Wrappers {

  datatype Option<+T> = None | Some(value: T) {
    /** `x || fallback` for a field that is either absent or present. */
    function GetOr(fallback: T): T {
      match this
      case Some(v) => v
      case None => fallback
    }
  }

  datatype Result<+T, +E> = Ok(value: T) | Err(error: E)
}
