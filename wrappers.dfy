/** Success/failure values shared by the other modules. */
module Wrappers {

  /** A value that may be absent. */
  datatype Option<T> = None | Some(value: T)

  /** The outcome of an operation that can fail, like Rust's `Result<T, E>`. */
  datatype Result<T, E> = Ok(value: T) | Err(error: E)
}
