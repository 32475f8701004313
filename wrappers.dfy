/** Optional values: `None` stands for Python's `None` (a missing binding) or for a raised exception. */
module Wrappers {
  datatype Option<+T> = None | Some(value: T)
}
