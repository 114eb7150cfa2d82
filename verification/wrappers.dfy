/** Optional values shared by the other modules. */
module Wrappers {

  /** A value that may be missing, as Rust's `Option`. */
  datatype Option<+T> = None | Some(value: T)
}
