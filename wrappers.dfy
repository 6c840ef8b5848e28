/** The optional-value datatype used for absent inputs and failed parses. */
module Wrappers {
  datatype Option<+T> = None | Some(value: T)
}
