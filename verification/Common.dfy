/** Small result types shared by every module of the model. */
module Common {
  /** A JavaScript value that may be `null`. */
  datatype Option<+T> = None | Some(value: T)

  /** A call that either answers or throws an error carrying a code. */
  datatype Result<+T, +E> = Ok(value: T) | Err(error: E)
}
