/** Optional values, in place of Go's nil pointers and of errors that carry no further information. */
module Wrappers {
  datatype Option<+T> = None | Some(value: T)
}
