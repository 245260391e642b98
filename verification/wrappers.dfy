/** The optional-value datatype used for the error paths of the model: a
    Python exception, a C NaN, or a malformed byte stream becomes `None`. */
module Wrappers {

  datatype Option<+T> = None | Some(value: T)
}
