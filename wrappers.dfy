/** Optional values, for fields the application leaves `null` and for lookups that can miss. */
module Wrappers {

  datatype Option<T> = None | Some(value: T)
}
