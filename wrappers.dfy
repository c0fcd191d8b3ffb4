/** The optional value used wherever the source has "a value or nothing". */
module Wrappers {

  datatype Option<+T> = None | Some(value: T)
}
