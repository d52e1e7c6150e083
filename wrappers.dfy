/** Option and Result, used for the nullable values and the `Result<T>` returns of the app. */
module Wrappers {

  datatype Option<+T> = None | Some(value: T) {
    /** The Kotlin elvis operator `x ?: default`. */
    function GetOr(default: T): T {
      match this
      case Some(v) => v
      case None => default
    }
  }

  /** Kotlin's `Result<T>`: a success value or an error message. */
  datatype Result<+T> = Success(value: T) | Failure(message: string)
}
