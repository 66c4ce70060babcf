/** Failure-compatible wrappers shared by every module of the model. */
module Base {

  datatype Option<+T> = None | Some(value: T)

  /** The outcome of a fallible operation: `Result<T, String>` / `PyResult<T>` in the source. */
  datatype Result<+T, +E> = Ok(value: T) | Err(error: E)
}
