/** The optional value used for parse results and for Go's `error` return slot. */
module Wrappers {
  datatype Option<+T> = None | Some(value: T)
}
