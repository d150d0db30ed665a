/** Values for operations of the source that either return or throw. */
module Outcome {
  datatype Result<+T> = Ok(value: T) | Err

  datatype Option<+T> = Some(value: T) | None
}
