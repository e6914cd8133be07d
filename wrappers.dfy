/** Optional values (`undefined`/`null` in the modelled code), results, and octets. */
module Wrappers {

  /** An 8-bit unsigned value: a UTF-8 code unit or an RGBA channel. */
  newtype byte = x: int | 0 <= x < 256

  datatype Option<+T> = None | Some(value: T) {
    function GetOr(default: T): T {
      match this
      case Some(v) => v
      case None => default
    }
  }

  datatype Result<+T, +E> = Success(value: T) | Failure(error: E)
}
