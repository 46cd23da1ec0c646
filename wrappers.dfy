/** Option and Result, the two failure-carrying shapes the model uses. */
module Wrappers {

  /** `Option<T>` as in Rust: the comparison register is an `Option<Ordering>`. */
  datatype Option<+T> = None | Some(value: T)

  /** The outcome of an operation that may fault. */
  datatype Result<+T, +E> = Ok(value: T) | Err(error: E)
}
