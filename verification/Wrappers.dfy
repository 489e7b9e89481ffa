/** The one shared helper type: an optional value, standing for Go's nil. */
module Wrappers {
  datatype Option<+T> = None | Some(value: T)
}
