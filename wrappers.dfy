/** Option and Result, the two failure-carrying types the calculator uses. */
module Wrappers {

  /** Rust's Option: a value or nothing. */
  datatype Option<+T> = None | Some(value: T)

  /** Rust's Result: a value or an error. */
  datatype Result<+T, +E> = Ok(value: T) | Err(error: E)
}
