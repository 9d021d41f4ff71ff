/**
 * Option and Result: the two ways a modelled operation reports absence
 * (a map lookup that misses) or failure (a Go error return, a C -1).
 */
module Wrappers {

  datatype Option<T> = None | Some(value: T)
  {
    /** The value, or `default` when there is none. */
    function GetOr(default: T): (r: T)
      ensures Some? ==> r == value
      ensures None? ==> r == default
    {
      match this
      case Some(v) => v
      case None => default
    }
  }

  /** A Go `(T, error)` pair: exactly one of the two is meaningful. */
  datatype Result<T> = Ok(value: T) | Err(msg: string)

  /** A Go call that returns only an `error`. */
  datatype Status = Success | Failure(msg: string)
}
