/** Wrappers shared by every module of the model.
    `Option` stands for a dictionary key that may be absent (or a Python
    `None`), `Result` for an operation that may raise. */
module Wrappers {

  datatype Option<+T> = None | Some(value: T) {

    /** The carried value, or `default` when absent (Python's `dict.get(k, default)`). */
    function GetOr(default: T): T {
      match this
      case Some(v) => v
      case None => default
    }
  }

  datatype Result<+T, +E> = Success(value: T) | Failure(error: E)
}
