/** The optional value that stands for Go's second result and for its nil. */
module Wrappers {
  datatype Option<+T> = None | Some(value: T)
}
