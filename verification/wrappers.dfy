/** Optional values: a JavaScript `null`/`undefined`, an empty input field, or a failed parse. */
module Wrappers {

  datatype Option<+T> = None | Some(value: T) {

    /** The wrapped value, or `default` when there is none (the `x || default` idiom). */
    function GetOr(default: T): T {
      match this
      case Some(v) => v
      case None => default
    }
  }

  /** The outcome of a call that may throw: its value, or the message of the error it throws. */
  datatype Result<+T> = Success(value: T) | Failure(error: string)
}
