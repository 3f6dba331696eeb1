/** Option and Result types shared by the whole model. */
module Wrappers {

  /** A value that may be absent (Kotlin's nullable `T?`). */
  datatype Option<+T> = None | Some(value: T) {
    function GetOr(default: T): T {
      match this
      case Some(v) => v
      case None => default
    }
  }

  /** Kotlin's `Result<T>`: a success value, or a failure carrying the
      exception's (possibly null) message. */
  datatype Result<+T> = Success(value: T) | Failure(message: Option<string>)

  /** The outcome the environment gives to one call into the document store:
      it completes, or it throws an exception with an optional message. */
  datatype Fault = NoFault | Fault(message: Option<string>)
}
