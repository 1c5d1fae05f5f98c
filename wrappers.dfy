/** Option and Result, shared by the model's modules. */
module Wrappers {

  /** A value that may be absent (Rust `Option`, a Python attribute not yet set). */
  datatype Option<T> = None | Some(value: T)

  /** A value or an error (Rust `Result`). */
  datatype Result<T, E> = Success(value: T) | Failure(error: E)
}
