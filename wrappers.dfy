/** The optional value used for "skip this entry" and for an absent error. */
module Wrappers {

  datatype Option<+T> = None | Some(value: T)
}
