/** A value, or the absence of one. */
module Wrappers {

  datatype Option<+T> = None | Some(value: T)
}
