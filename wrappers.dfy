/** The optional value used for Go's `err` return (None is a nil error). */
module Wrappers {

  datatype Option<+T> = None | Some(value: T)
}
