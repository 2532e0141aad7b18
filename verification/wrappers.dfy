/** Optional values: a nullable database column, a missing row, a failed lookup. */
module Wrappers {

  datatype Option<+T> = None | Some(value: T)
}
