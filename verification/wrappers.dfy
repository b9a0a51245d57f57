/** Optional values, used where the C code signals failure with NULL or 0. */
module Wrappers {
  datatype Option<+T> = None | Some(value: T)
}
