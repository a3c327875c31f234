/** Optional values, for SQL NULL, absent keys and empty query results. */
module Wrappers {
  datatype Option<+T> = None | Some(value: T)
}
