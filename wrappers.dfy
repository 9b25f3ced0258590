/** The nullable-value wrapper shared by the model: SQL NULL and JavaScript null. */
module Wrappers {
  datatype Option<+T> = None | Some(value: T)
}
