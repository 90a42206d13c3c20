// Result types shared by the modules of the model.
module Wrappers {
  datatype Option<+T> = None | Some(value: T)

  // The source's exceptions and `Result<_, E>` returns.
  datatype Result<+T, +E> = Ok(value: T) | Err(error: E)
}
