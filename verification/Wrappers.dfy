/** Option, the model's null-or-value. */
module Wrappers {
  datatype Option<+T> = None | Some(value: T)
}
