/** The conventional optional value, used for a pattern that may not match. */
module Wrappers {

  datatype Option<+T> = None | Some(value: T)
}
