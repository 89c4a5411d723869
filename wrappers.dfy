/** The optional value used wherever the Go code has a nil value or a `, ok` lookup. */
module Wrappers {

  datatype Option<+T> = None | Some(value: T)
}
