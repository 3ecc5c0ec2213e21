/** The optional values used for attribute lookups and for "no file written". */
module Wrappers {

  datatype Option<+T> = None | Some(value: T)
}
