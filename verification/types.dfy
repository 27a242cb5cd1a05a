/** Shared value types: the platform's 32-bit `Int`, optional values, and the
    outcome of a call into a collaborator that may throw. */
module Types {

  /** Kotlin's `Int`: a signed 32-bit integer. Post ids and author ids are
      only compared and used as keys, so no arithmetic (and no wrap-around)
      is ever performed on them. */
  type Int32 = x: int | -0x8000_0000 <= x < 0x8000_0000

  /** A nullable value (`T?`). */
  datatype Option<+T> = None | Some(value: T) {

    /** The value, or `default` when absent (Kotlin's `?:`). */
    function GetOr(default: T): (r: T)
      ensures Some? ==> r == value
      ensures None? ==> r == default
    {
      match this
      case Some(v) => v
      case None => default
    }
  }

  /** A thrown exception, reduced to what the callers read from it: its
      possibly-null message. */
  datatype Failure = Failure(message: Option<string>)

  /** The outcome of a remote call: the decoded value, or the exception it
      threw (timeout, connection error, non-2xx status, decoding error). */
  datatype Remote<+T> = Ok(value: T) | Failed(error: Failure)
}
