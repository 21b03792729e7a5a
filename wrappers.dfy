/** Option and Result, the failure-compatible wrappers used across the model. */
module Wrappers {

  /** `None` stands for JavaScript's `null` / `undefined`. */
  datatype Option<+T> = None | Some(value: T) {
    function GetOr(default: T): T {
      match this
      case Some(v) => v
      case None => default
    }
  }

  /** The outcome of an operation that may throw. */
  datatype Outcome<+E> = Pass | Fail(error: E)
}
