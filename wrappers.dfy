/** Optional values, used for nullable state and for results that may be missing. */
module Wrappers {

  datatype Option<+T> = None | Some(value: T)
}
