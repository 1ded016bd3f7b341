/** Option and Result values used for the source's `null` / thrown errors. */
module Wrappers {

  datatype Option<+T> = None | Some(value: T) {
    /** `value ?? default`. */
    function GetOr(default: T): T {
      match this
      case Some(v) => v
      case None => default
    }
  }

  /** A service call either returns a value or throws `Error(message)`. */
  datatype Result<+T> = Success(value: T) | Failure(error: string)
}
