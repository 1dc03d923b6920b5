/** Option and Result values used for JavaScript's `undefined` results and thrown errors. */
module Wrappers {
  datatype Option<T> = None | Some(value: T)

  /** A computation that either returns a value or throws an error with a message. */
  datatype Result<T> = Ok(value: T) | Err(msg: string)
  {
    predicate IsOk() { Ok? }
  }
}
