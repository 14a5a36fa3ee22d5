/** Option and Result: the two failure-carrying shapes the model uses in place
    of Python's None and of raised exceptions. */
module Wrappers {

  datatype Option<+T> = None | Some(value: T) {
    function GetOr(default: T): T {
      match this
      case Some(v) => v
      case None => default
    }
  }

  /** `Err` stands for an exception; its payload is the exception's text (Python's `str(e)`). */
  datatype Result<+T, +E> = Ok(value: T) | Err(error: E)
}
