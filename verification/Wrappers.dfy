/** The optional value and the checked result that the other modules share. */
module Wrappers {

  datatype Option<+T> = None | Some(value: T)

  /** What a source operation that may throw returns: its value, or the reason it threw. */
  datatype Result<+T> = Ok(value: T) | Err(reason: string)
}
