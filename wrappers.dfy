/** The optional result of an operation that can fail or has no defined value. */
module Wrappers {

  datatype Option<+T> = None | Some(value: T)
}
