/** Optional values: a Java reference that may be null, or a computation that may produce nothing. */
module Wrappers {

  datatype Option<+T> = None | Some(value: T)
}
