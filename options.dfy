/** Option and Result: the Rust standard library's `Option` and `Result`, as the model needs them. */
module Options {

  datatype Option<+T> = None | Some(value: T)

  datatype Result<+T, +E> = Ok(value: T) | Err(error: E)
}
