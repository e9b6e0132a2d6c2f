/** Optional values and results with an error, used wherever the source has
    `null`/`undefined` or throws. */
module Wrappers {

  datatype Option<+T> = None | Some(value: T) {
    /** The value, or `default` when there is none (JavaScript's `x ?? d`). */
    function GetOr(default: T): T {
      match this
      case Some(v) => v
      case None => default
    }
  }

  /** The outcome of an operation that may throw: `Ok` or `Err` with a message. */
  datatype Result<+T> = Ok(value: T) | Err(message: string)
}
