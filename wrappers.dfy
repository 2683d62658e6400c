/** The usual optional value, used wherever the source returns None or a default. */
module Wrappers {

  datatype Option<+T> = None | Some(value: T) {

    /** The contained value, or `default` when there is none (Python's `x or default`). */
    function GetOr(default: T): T {
      match this
      case Some(v) => v
      case None => default
    }
  }

  /** A value, or the message of the error that stopped the computation. */
  datatype Result<+T> = Success(value: T) | Failure(error: string)
}
