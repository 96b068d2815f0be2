/** Failure-compatible wrappers shared by every module of the model.
    `Option` stands for a JavaScript value that may be null/undefined,
    `Result` for a step that either produces a value or stops with an error. */
module Wrappers {

  datatype Option<+T> = None | Some(value: T) {

    /** The value, or `default` when there is none. */
    function GetOr(default: T): T {
      match this
      case Some(v) => v
      case None => default
    }
  }

  datatype Result<+T, +E> = Ok(value: T) | Err(error: E)
}
