/** Option and Result values, as the Rust code uses `Option<T>` and panics. */
module Wrappers {

  datatype Option<+T> = None | Some(value: T)

  /** The outcome of a computation that the Rust code would abort with a panic. */
  datatype Result<+T, +E> = Ok(value: T) | Err(error: E)
}
