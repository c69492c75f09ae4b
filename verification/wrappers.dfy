/** Failure-carrying datatypes shared by the model: `Option` for the JavaScript
    values that may be `null`/`undefined`, `Result` for computations that throw. */
module Wrappers {

  datatype Option<+T> = None | Some(value: T)

  datatype Result<+T, +E> = Ok(value: T) | Err(error: E)
}
