/** Optional values, used where the source can yield "no value" (a missing row, a non-numeric segment). */
module Wrappers {
  datatype Option<+T> = None | Some(value: T)
}
