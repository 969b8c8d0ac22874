/** Optional values, used where the source returns None or raises on an empty input. */
module Wrappers {

  datatype Option<+T> = None | Some(value: T)
}
