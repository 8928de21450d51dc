/** Option: the nullable values of the JavaScript source (`null`, `undefined`, a row not found). */
module Wrappers {
  datatype Option<+T> = None | Some(value: T)
}
