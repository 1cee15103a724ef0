/** The optional value used for "not found" and for an undefined correlation. */
module Wrappers {

  datatype Option<+T> = None | Some(value: T)
}
