/** Option, Result and Outcome: the values that stand for Swift optionals and `throws`. */
module Wrappers {

  datatype Option<+T> = None | Some(value: T)

  /** The result of a throwing call that returns a value. */
  datatype Result<+T, +E> = Ok(value: T) | Err(error: E)

  /** The result of a throwing call that returns nothing. */
  datatype Outcome<+E> = Pass | Fail(error: E)
}
