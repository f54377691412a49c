/** A value or nothing, for null pointers. */
module Wrappers {
  datatype Option<+T> = None | Some(value: T)
}
