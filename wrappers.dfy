/** Optional values and results shared by the server and the client models. */
module Wrappers {

  /** A value that may be absent (`undefined`/`null` in the JavaScript source). */
  datatype Option<+T> = None | Some(value: T)

  /** The outcome of a step that may be refused with an error. */
  datatype Result<+R, +E> = Ok(value: R) | Err(error: E)
}
