/** The optional value used for the parts of a font document that may be null. */
module Wrappers {
  datatype Option<+T> = None | Some(value: T)
}
