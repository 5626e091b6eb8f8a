/** The optional value used for an absent parent and for a failed read. */
module Wrappers {
  datatype Option<+T> = None | Some(value: T)
}
