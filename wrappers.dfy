/** Optional values: a null attribute, an absent echo, an expression that fails. */
module Wrappers {

  datatype Option<+T> = None | Some(value: T)
}
