/** Optional values and operation results, standing for C#'s nullable references and thrown exceptions. */
module Wrappers {

  /** `None` is the source's `null`. */
  datatype Option<+T> = None | Some(value: T)

  /** `Err` is an exception raised by the store, carrying its message. */
  datatype Result<+T> = Ok(value: T) | Err(message: string)
}
