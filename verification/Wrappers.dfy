/** The optional value used where the source passes a pointer that may be NULL. */
module Wrappers {
  datatype Option<+T> = None | Some(value: T)
}
