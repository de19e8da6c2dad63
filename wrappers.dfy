/** The conventional optional value, used where the source has a null pointer
    or an error return. */
module Wrappers {
  datatype Option<+T> = None | Some(value: T)
}
