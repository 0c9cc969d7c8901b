module Wrappers {
  /** A value that may be absent: a null pointer, or a call that delivered nothing. */
  datatype Option<+T> = None | Some(value: T)
}
