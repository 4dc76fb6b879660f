/** The two result shapes the models share. */
module Wrappers {
  datatype Option<+T> = None | Some(value: T)

  /** Success, or the exception the program throws (only the fact that it throws is kept). */
  datatype Result<+T> = Success(value: T) | Thrown
}
