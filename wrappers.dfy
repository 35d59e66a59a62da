/** Option and Result values for the source's NULL returns and fatal errors. */
module Wrappers {
  datatype Option<T> = None | Some(value: T)

  /** A read that either yields a value or stops with the message the source prints before exiting. */
  datatype Result<T> = Ok(value: T) | Fatal(message: string)
}
