/** The usual optional value, for the source's NULL pointers. */
module Wrappers {
  datatype Option<+T> = None | Some(value: T)
}
