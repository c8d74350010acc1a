/** Failure-compatible wrapper used where the source signals failure by an empty result. */
module Wrappers {
  datatype Option<+T> = None | Some(value: T)
}
