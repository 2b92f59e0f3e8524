/** Optional values, used for the Go functions that return a value or nothing. */
module Wrappers {
  datatype Option<+T> = None | Some(value: T)
}
