/** Outcomes of operations that may be absent or may fail. */
module Wrappers {
  datatype Option<+T> = None | Some(value: T)

  /** The source reports errors as messages; the model keeps only that there was one. */
  datatype Result<+T> = Ok(value: T) | Err
}
