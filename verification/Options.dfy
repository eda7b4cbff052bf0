/** A value that may be missing: a null pointer, a failed search, or an exception. */
module Options {
  datatype Option<+T> = None | Some(value: T)
}
