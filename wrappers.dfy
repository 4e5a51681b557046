/** Optional values: Go's nil pointer results (a node that was not found). */
module Wrappers {
  datatype Option<+T> = None | Some(value: T)
}
