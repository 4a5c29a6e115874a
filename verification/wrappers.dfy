/** Option, Result and Outcome: the null returns and exceptions of the library. */
module Wrappers {

  datatype Option<T> = None | Some(value: T)

  datatype Result<T, E> = Ok(value: T) | Err(error: E)

  /** The result of an operation that returns nothing but may throw. */
  datatype Outcome<E> = Pass | Fail(error: E)
}
