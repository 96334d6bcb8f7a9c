/** Option datatype shared by the modules of the shopping-list model. */
module Wrappers {
  datatype Option<+T> = None | Some(value: T)
}
