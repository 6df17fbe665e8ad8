/**
 A value that may be absent: a null pointer, an error, or nothing found.
 */
module Options {
  datatype Option<+T> = None | Some(value: T)
}
