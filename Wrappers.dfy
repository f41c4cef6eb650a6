/** Option and Result, the shapes in which the bridge's "None on failure" and raised errors are modelled. */
module Wrappers {

  datatype Option<+T> = None | Some(value: T)

  datatype Result<+T> = Ok(value: T) | Err(message: string)
}
