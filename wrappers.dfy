/** Optional values and error-carrying results, used throughout the model for
    JavaScript's `undefined`/`null` and for rejected promises. */
module Wrappers {

  /** A value that may be absent (`undefined` or `null` in the source). */
  datatype Option<T> = None | Some(value: T) {

    /** The value, or `default` when absent (the source's `x ?? default`). */
    function GetOr(default: T): T {
      match this
      case Some(v) => v
      case None => default
    }
  }

  /** The outcome of an operation that returns a value or throws an error with a message. */
  datatype Result<T> = Ok(value: T) | Err(message: string)

  /** The outcome of an operation that returns nothing or throws an error with a message. */
  datatype Outcome = Done | Failed(message: string)
}
