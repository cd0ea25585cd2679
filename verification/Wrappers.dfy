/** Result types for calls that may throw or revert. */
module Wrappers {
  datatype Option<+T> = None | Some(value: T)
}
