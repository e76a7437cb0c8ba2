/** The optional value used where the slider's JavaScript yields `undefined`. */
module Wrappers {
  datatype Option<+T> = None | Some(value: T)
}
