/** Optional values, for the source's `Option`. */
module Wrappers {

  datatype Option<+T> = None | Some(value: T)
}
