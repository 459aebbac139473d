/** Option and Result, used for absent JavaScript values and for thrown errors. */
module Wrappers {

  datatype Option<+T> = None | Some(value: T)

  /** `Err(message)` stands for a JavaScript `throw` carrying that message. */
  datatype Result<+T> = Ok(value: T) | Err(message: string)
}
