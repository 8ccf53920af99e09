/** Optional values, for results the program returns as `None`. */
module Wrappers {
  datatype Option<+T> = None | Some(value: T)
}
