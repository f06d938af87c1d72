/** Rust's `Option<T>`, shared by the modules that return one. */
module Options {

  datatype Option<+T> = None | Some(value: T)
}
