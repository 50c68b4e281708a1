/** The optional value used wherever the program uses Python's `None`. */
module Wrappers {

  datatype Option<+T> = None | Some(value: T)
}
