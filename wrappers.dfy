/** Option and Result, the two failure-carrying shapes the crate uses
    (Rust's `Option<T>` and `io::Result<T>`). */
module Wrappers {

  datatype Option<+T> = None | Some(value: T)

  datatype Result<+T, +E> = Ok(value: T) | Err(error: E)
}
