/** The optional value used for "first occurrence" searches and lookups. */
module Wrappers {

  datatype Option<+T> = None | Some(value: T)
}
