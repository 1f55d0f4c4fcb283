/** Option and Result values used by the handler model. */
module Wrappers {

  /** A value that may be absent; the handler's `None` is `None` here. */
  datatype Option<+T> = None | Some(value: T)

  /** The outcome of a call that either returns a value or raises an error. */
  datatype Result<+T, +E> = Ok(value: T) | Err(error: E)
}
