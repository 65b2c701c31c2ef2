/** Optional values, used for partial operations (a field that does not parse,
    a lookup that finds nothing). */
module Wrappers {
  datatype Option<+T> = None | Some(value: T)
}
