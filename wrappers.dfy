// An optional value, standing for Go's (value, ok) pairs.
module Wrappers {

  datatype Option<+T> = None | Some(value: T)
}
