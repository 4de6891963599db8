/** Optional values and results with an error message, as the handlers report them. */
module Wrappers {

  /** A value that may be absent: `null` from the store, `-1` from `findIndex`, NaN from date parsing. */
  datatype Option<+T> = None | Some(value: T) {

    /** The value, or `default` when absent (the source's `x || default`). */
    function GetOr(default: T): T {
      match this
      case Some(v) => v
      case None => default
    }
  }

  /** The outcome of a handler: the entity it produced, or the message it shows the user. */
  datatype Result<+R, +E> = Success(value: R) | Failure(error: E)
}
