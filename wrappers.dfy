/** Optional values, used for the outcome of an operation that may throw. */
module Wrappers {
  datatype Option<+T> = None | Some(value: T)
}
