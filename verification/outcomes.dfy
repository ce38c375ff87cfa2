/** Small failure-carrying datatypes shared by the shell model. */
module Outcomes {

  /** An optional value: the shell's "recorded / not recorded" flags. */
  datatype Option<+T> = None | Some(value: T)

  /** A computation that either yields a value or names what went wrong. */
  datatype Result<+T, +E> = Ok(value: T) | Err(error: E)
}
