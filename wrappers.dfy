/** The optional value used for fields a remote reply may leave out. */
module Wrappers {
  datatype Option<+T> = None | Some(value: T)
}
