/** Option and Result, the two failure-carrying wrappers the model uses in place
    of Rust's `Option<T>` and `Result<T, E>`. */
module Prelude {

  datatype Option<+T> = None | Some(value: T)

  datatype Result<+T, +E> = Ok(value: T) | Err(error: E)

}
