/** Optional values, used where the protocol code would hold a null or throw. */
module Wrappers {

  datatype Option<+T> = None | Some(value: T)
}
