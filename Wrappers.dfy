/** The Option datatype used across the model for JavaScript's `null`. */
module Wrappers {
  datatype Option<+T> = None | Some(value: T)
}
