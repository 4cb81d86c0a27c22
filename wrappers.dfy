/** Optional values: a database column that may hold NULL, a JSON key that may be absent. */
module Wrappers {

  datatype Option<+T> = None | Some(value: T)
}
