/** Types used throughout: an optional value, a value-or-error, a positive number. */
module Wrappers {

  datatype Option<+T> = None | Some(value: T)

  datatype Result<+T, +E> = Ok(value: T) | Err(error: E)

  type Positive = n: int | 0 < n witness 1
}
