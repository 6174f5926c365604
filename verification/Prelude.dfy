/** Value types shared by every module of the project. */
module Prelude {

  /** A nullable column or an optional argument. */
  datatype Option<+T> = None | Some(value: T)

  /** A call that returns a value or raises. */
  datatype Result<+T, +E> = Ok(value: T) | Err(error: E)
}
