/** Failure-carrying values: an absent value and a computation that may fail. */
module Wrappers {

  datatype Option<+T> = None | Some(value: T)

  /** Ok carries a result; Err carries what a Java method would have thrown instead. */
  datatype Result<+T, +E> = Ok(value: T) | Err(error: E)
}
