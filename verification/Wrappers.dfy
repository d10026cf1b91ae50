/** The optional value used throughout the model where the source returns a Rust `Option`. */
module Wrappers {
  datatype Option<+T> = None | Some(value: T)
}
