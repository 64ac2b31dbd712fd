/** A value that may be missing, as a null pointer is in the code. */
module Wrappers {
  datatype Option<+T> = None | Some(value: T)
}
