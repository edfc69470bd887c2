/** Option and Result: the error paths of the converter's Python code (a missing
    mimetype, a ValueError from pathlib) become values instead of exceptions. */
module Results {

  datatype Option<+T> = None | Some(value: T)

  datatype Result<+T, +E> = Ok(value: T) | Err(error: E)
}
