/** The option and result types shared by the modules of this model. */
module Wrappers {

  /** A value that may be absent (`undefined` in the source). */
  datatype Option<+T> = None | Some(value: T) {
    function GetOr(default: T): T {
      match this
      case Some(v) => v
      case None => default
    }
  }

  /** The outcome of an operation that may throw: its value, or the error it throws. */
  datatype Result<+R, +E> = Ok(value: R) | Err(error: E)
}
