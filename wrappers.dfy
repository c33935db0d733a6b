/** Optional values and results shared by the other modules. */
module Wrappers {

  datatype Option<+T> = None | Some(value: T)

  /** A computation that either yields a value or raises an error carrying
      the exception's message. */
  datatype Result<+T> = Ok(value: T) | Err(error: string)
}
