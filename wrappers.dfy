/** Optional values: a reference that may be null in the source. */
module Wrappers {

  datatype Option<+T> = None | Some(value: T)

}
