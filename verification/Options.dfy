/** A value that may be missing, as a null pointer in the source. */
module Options {
  datatype Option<T> = None | Some(value: T)
}
