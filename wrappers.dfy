/** The optional value used wherever the application meets a call that may fail. */
module Wrappers {

  datatype Option<+T> = None | Some(value: T)
}
