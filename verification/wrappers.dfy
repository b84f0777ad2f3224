/** Failure-carrying values shared by the rest of the model. */
module Wrappers {

  /** A value that may be absent, such as the dial target after the fatal
      start-up error, or the host read from a text that is no dial target */
  datatype Option<+T> = None | Some(value: T)

  /** The outcome of a call into code outside the model (the upstream
      lookup): either a value or the error text it reported. */
  datatype Result<+T> = Ok(value: T) | Err(error: string)
}
