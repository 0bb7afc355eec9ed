/** Rust's `Option`, used for the optional name filter and for the result of `kill_process`. */
module Wrappers {
  datatype Option<+T> = None | Some(value: T)
}
