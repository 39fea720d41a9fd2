/** The optional value used for "nothing happened" results across the model. */
module Wrappers {
  datatype Option<+T> = None | Some(value: T)
}
