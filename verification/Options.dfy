/** A value that may be absent: a null pointer, a failed search, a match that is not found. */
module Options {
  datatype Option<+T> = None | Some(value: T)
}
