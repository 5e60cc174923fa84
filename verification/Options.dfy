/** A value that may be missing: a NULL result, an exception of the source. */
module Options {
  datatype Option<T> = None | Some(value: T)
}
