/** Optional values, used for the "no match" and "cannot decode" outcomes. */
module Wrappers {
  datatype Option<+T> = None | Some(value: T)
}
