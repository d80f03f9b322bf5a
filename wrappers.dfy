/** Optional values: a file that failed to load, a missing timestamp, a
    reduction over an empty collection. */
module Wrappers {
  datatype Option<+T> = None | Some(value: T)
}
