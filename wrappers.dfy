/** Optional values: a column or request field that may be absent. */
module Wrappers {

  datatype Option<+T> = None | Some(value: T)

}
