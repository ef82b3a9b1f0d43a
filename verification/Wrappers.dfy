/** The optional value used throughout the model in place of `None`. */
module Wrappers {
  datatype Option<+T> = None | Some(value: T)
}
