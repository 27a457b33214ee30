/** The optional value used for "no result" throughout the model. */
module Wrappers {

  datatype Option<+T> = None | Some(value: T)
}
