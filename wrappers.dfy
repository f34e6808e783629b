/** Optional values: a request field, a configuration secret or an error code may be absent. */
module Wrappers {

  datatype Option<+T> = None | Some(value: T)
}
