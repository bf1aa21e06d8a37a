/** The `Option` type that the Rust source uses for lookups that may fail. */
module Wrappers {

  datatype Option<+T> = None | Some(value: T)
}
