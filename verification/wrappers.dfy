/** The optional-value type used by the dispatcher and the colour codec. */
module Wrappers {
  datatype Option<+T> = None | Some(value: T)
}
