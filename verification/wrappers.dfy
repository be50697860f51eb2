/** A value or none: NULL pointers and failed requests of the source. */
module Wrappers {
  datatype Option<+T> = None | Some(value: T)
}
