/** The optional value used where pandas yields NaN or raises on an empty group. */
module Wrappers {
  datatype Option<+T> = None | Some(value: T)
}
