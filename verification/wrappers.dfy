/** Optional values: a lookup that may find nothing, a JSON field that may be absent. */
module Wrappers {

  datatype Option<+T> = None | Some(value: T)
}
