/** Option and Result, standing for Java's null / Optional and for thrown exceptions. */
module Wrappers {

  datatype Option<+T> = None | Some(value: T)

  /** Err carries the name of the exception the Java code would throw. */
  datatype Result<+T> = Ok(value: T) | Err(error: string)
}
