/** The optional-value type used throughout the model (Go's nil-able results). */
module Wrappers {
  datatype Option<+T> = None | Some(value: T)
}
