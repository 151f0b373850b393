/** Option and Result values, used where the modelled code can fail. */
module Results {

  /** A value that may be absent. */
  datatype Option<T> = None | Some(value: T)

  /** Either a value or the error the Python code would raise instead. */
  datatype Result<T, E> = Ok(value: T) | Err(error: E)
}
