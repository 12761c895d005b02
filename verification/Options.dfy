/** A value that may be absent: Python's None, C++'s null. */
module Options {
  datatype Option<+T> = None | Some(value: T)
}
