/** A value that may be missing: a nil pointer, a missing map key, an error where its kind does not matter. */
module Wrappers {

  datatype Option<+T> = None | Some(value: T)
}
