/** The optional value used for the engine handle, which the element keeps
    as a C reference that is either live or NULL. */
module Wrappers {
  datatype Option<+T> = None | Some(value: T)
}
