/** Option and Result values shared by the modules of this model. */
module Wrappers {

  /** A value that may be absent, like TypeScript's `T | undefined`. */
  datatype Option<+T> = None | Some(value: T)

  /** The outcome of an operation that may fail with a message, such as a
      rejected `exec` promise or a `JSON.parse` that throws. */
  datatype Result<+T> = Ok(value: T) | Err(message: string)
}
