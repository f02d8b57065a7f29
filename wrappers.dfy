/** Option and Result, the two wrappers used for the firmware's fallible operations. */
module Wrappers {
  datatype Option<+T> = None | Some(value: T)
  {
    predicate IsSome() { this.Some? }
  }

  datatype Result<+T, +E> = Ok(value: T) | Err(error: E)
  {
    predicate IsOk() { this.Ok? }
  }
}
