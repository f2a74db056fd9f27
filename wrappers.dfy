/** Option: the model's stand-in for a Go value that may be nil. */
module Wrappers {

  datatype Option<+T> = None | Some(value: T)
}
