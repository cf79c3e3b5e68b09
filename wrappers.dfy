/** The optional value used for C's "pointer or NULL" results. */
module Wrappers {
  datatype Option<T> = None | Some(value: T)
}
