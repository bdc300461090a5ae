/** Option and Result values used throughout the model in place of `None`
    and raised HTTP exceptions. */
module Wrappers {

  datatype Option<+T> = None | Some(value: T)

  /** The outcome of a server handler: a value, or the HTTP status code of the
      `HTTPException` that the handler lets escape. */
  datatype Result<+T> = Ok(value: T) | Err(status: int)
}
