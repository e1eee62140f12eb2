/** Option and Result, the two failure-carrying shapes every layer of the model uses. */
module Wrappers {

  datatype Option<+T> = None | Some(value: T)

  /** `Err` stands for a thrown exception or an error return of the source. */
  datatype Result<+T, +E> = Ok(value: T) | Err(error: E)
}
