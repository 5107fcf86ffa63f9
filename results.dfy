/** Option and Result, the wrappers used by the lookup, the decoder and the event reader. */
module Results {

  datatype Option<+T> = None | Some(value: T)

  datatype Result<+T, +E> = Ok(value: T) | Err(error: E)
}
