/** Result shapes shared by the model. */
module Wrappers {
  datatype Option<+T> = None | Some(value: T)
}
