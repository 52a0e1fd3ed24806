/** Rust's `Option`, used for "a message, or nothing this tick". */
module Options {
  datatype Option<+T> = None | Some(value: T)
}
