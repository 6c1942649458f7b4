/** The value that may be missing, for all the models. */
module Wrappers {

  datatype Option<+T> = None | Some(value: T)
}
