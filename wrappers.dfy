/** Optional values: `None` stands for a missing result (an `end()` iterator, an infinite difference). */
module Wrappers {
  datatype Option<+T> = None | Some(value: T)
}
