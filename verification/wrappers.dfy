/** Failure-carrying return types shared by the buffer model: the `Option`
    that `consume` returns and the `Result` that `add` returns. */
module Wrappers {

  /** Either no value or exactly one value. */
  datatype Option<+T> = None | Some(value: T)

  /** Either success carrying a value or failure carrying an error value. */
  datatype Result<+R, +E> = Ok(value: R) | Err(error: E)
}
