/** Option and Result, the two failure-carrying shapes the rest of the model uses. */
module Wrappers {

  /** A value that may be missing: a JSON key that is absent, a spreadsheet cell that is empty. */
  datatype Option<+T> = None | Some(value: T) {
    function GetOr(default: T): T {
      match this
      case Some(v) => v
      case None => default
    }
  }

  /** The outcome of one chunk request: its payload, or exactly one error. */
  datatype Result<+R, +E> = Ok(value: R) | Err(error: E)
}
