/** The optional-value type used for searches that may fail and for
    constructors that abort. */
module Wrappers {

  datatype Option<+T> = None | Some(value: T)
}
