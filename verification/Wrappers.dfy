/** Result and option types used by every model in the project. */
module Wrappers {

  datatype Option<+T> = None | Some(value: T)

  /** The outcome of a fallible operation; `message` names the failed condition. */
  datatype Result<+T> = Ok(value: T) | Err(message: string)

  datatype Ordering = Less | Equal | Greater
}
