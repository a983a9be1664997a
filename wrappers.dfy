/** Small failure-carrying datatypes shared by the other modules. */
module Wrappers {

  datatype Option<+T> = None | Some(value: T)

  /** Why reading the console prompts stopped before an answer was complete. */
  datatype InputError = EndOfInput

  datatype Result<+T> = Ok(value: T) | Err(error: InputError)
}
