/** The optional value used for nullable cells, lookups that may find nothing
    and operations that may raise. */
module Wrappers {
  datatype Option<+T> = None | Some(value: T)
}
