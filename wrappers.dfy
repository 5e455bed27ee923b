/** Optional values and results with an error message, shared by the other modules. */
module Wrappers {

  datatype Option<+T> = None | Some(value: T)

  /** The outcome of an operation that can fail with a message, as a thrown JavaScript Error. */
  datatype Result<+T> = Ok(value: T) | Err(message: string)
}
