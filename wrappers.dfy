/** Option and Result values, standing for Rust's `Option<T>` and `Result<T, String>`. */
module Wrappers {

  datatype Option<+T> = None | Some(value: T)

  /** Every error of the supervisor is a plain message string, as in the source. */
  datatype Result<+T> = Ok(value: T) | Err(error: string)
}
