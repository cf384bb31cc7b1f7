/** Option and Result, the failure-carrying values the rest of the model returns. */
module Wrappers {

  /** `None` stands for JavaScript's `undefined` wherever the source reads a value that may be absent. */
  datatype Option<+T> = None | Some(value: T) {
    function GetOr(default: T): T {
      match this
      case Some(v) => v
      case None => default
    }
  }

  /** The outcome of a computation that the source may abort by throwing. */
  datatype Result<+R, +E> = Ok(value: R) | Err(error: E)
}
