/** Option, used where the source returns `Option` or where the model reports a lookup. */
module Wrappers {
  datatype Option<+T> = None | Some(value: T)
}
