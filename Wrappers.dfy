/** Optional values, used wherever the source returns null, None or false on failure. */
module Wrappers {
  datatype Option<T> = None | Some(value: T)
}
