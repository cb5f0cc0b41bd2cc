/** Option and Result, standing for Rust's `Option<T>` and `Result<T, E>`. */
module Outcomes {

  datatype Option<+T> = None | Some(value: T)

  datatype Result<+T, +E> = Ok(value: T) | Err(error: E)

  /** A `panic!`, an `unwrap` on an error, or a division by zero: the thread stops. */
  datatype Panic = Panic
}
