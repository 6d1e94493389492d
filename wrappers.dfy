/** Optional values: a missing player object or a box that is not found. */
module Wrappers {
  datatype Option<+T> = None | Some(value: T)
}
