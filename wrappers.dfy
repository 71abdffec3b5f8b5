/** Optional values: what a parse that may fail returns, and a file that may not open. */
module Wrappers {
  datatype Option<+T> = None | Some(value: T)
}
