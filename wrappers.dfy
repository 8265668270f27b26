/** Optional values, used where the source passes `None` or a possibly missing result. */
module Wrappers {
  datatype Option<+T> = None | Some(value: T)
}
