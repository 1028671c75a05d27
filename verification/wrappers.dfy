/** Failure-carrying datatypes shared by the rest of the model. */
module Wrappers {

  /** An optional value: `None` stands for a conversion that matched nothing. */
  datatype Option<+T> = None | Some(value: T)

  /** Either a value or the reason there is none. */
  datatype Result<+T, +E> = Ok(value: T) | Err(error: E)
}
