/** Failure-compatible wrappers shared by every module of the model. */
module Wrappers {

  /** A value that may be missing: JavaScript `null`/`undefined` or a lookup that found nothing. */
  datatype Option<+T> = None | Some(value: T) {

    /** Returns the value, or `default` when there is none. */
    function GetOr(default: T): T {
      match this
      case Some(v) => v
      case None => default
    }
  }

  /** Either a computed value or an error message. */
  datatype Result<+R> = Ok(value: R) | Err(message: string)
}
