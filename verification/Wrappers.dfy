/** A value that may be missing: a null pointer, an empty slot, a failed request. */
module Wrappers {
  datatype Option<+T> = None | Some(value: T)
}
