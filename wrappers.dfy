/** Optional values and handler outcomes shared by every module of the model. */
module Wrappers {

  /** A column or request field that may be absent (SQL NULL, JavaScript undefined or null). */
  datatype Option<+T> = None | Some(value: T)

  /** The outcome of a handler: a value, or the message of the Error it throws or emits. */
  datatype Result<+T> = Ok(value: T) | Err(message: string)
}
