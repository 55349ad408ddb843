/** Option and Result, the shapes in which the model returns "undefined" and thrown errors. */
module Wrappers {

  /** `None` stands for JavaScript's `undefined` wherever the source tests for it. */
  datatype Option<+T> = None | Some(value: T) {

    /** The value, or `default` when there is none (`x || default` on a present-or-undefined x). */
    function GetOr(default: T): T {
      match this
      case Some(v) => v
      case None => default
    }
  }

  /** `Err` stands for an exception thrown by the source. */
  datatype Result<+T, +E> = Ok(value: T) | Err(error: E)
}
