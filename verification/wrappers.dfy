/** The optional value used throughout the model for "row not found" and "not configured". */
module Wrappers {

  datatype Option<+T> = None | Some(value: T)
}
