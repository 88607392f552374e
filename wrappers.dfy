/** Optional values, for the places where the source yields null or throws. */
module Wrappers {
  datatype Option<+T> = None | Some(value: T)
}
