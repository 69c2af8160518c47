/**
  The optional-value and result datatypes used throughout the model (Go's nil pointers,
  `ok` results and `(value, error)` pairs).
*/
module Options {

  datatype Option<+T> = None | Some(value: T)

  datatype Result<+T, +E> = Ok(value: T) | Err(error: E)
}
