/** Optional values, used for the table's nullable `value` pointer. */
module Wrappers {

  datatype Option<+T> = None | Some(value: T)
}
