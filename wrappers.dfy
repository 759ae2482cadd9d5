/** Optional values and error results shared by the model. */
module Wrappers {

  /** A JavaScript value that may be `null`. */
  datatype Option<+T> = None | Some(value: T)

  /** A computation that either yields a value or throws an error carrying `message`. */
  datatype Result<+T> = Ok(value: T) | Err(message: string)
}
