/** Failure-carrying values used in place of the source's null references and exceptions. */
module Wrappers {

  /** A value that may be absent: `None` stands for a C# null. */
  datatype Option<+T> = None | Some(value: T)

  /** The outcome of an operation that either returns a value or throws. */
  datatype Result<+T, +E> = Ok(value: T) | Err(error: E)
}
