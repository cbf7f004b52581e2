/** The failure-compatible datatypes that the other modules share. */
module Wrappers {

  /** A nullable column or an absent value. */
  datatype Option<+T> = None | Some(value: T)

  /** A call that returns a value or raises. */
  datatype Result<+T, +E> = Ok(value: T) | Err(error: E)
}
