/** Optional values, standing for C pointers and Java references that may be null. */
module Wrappers {
  datatype Option<T> = None | Some(value: T)
}
