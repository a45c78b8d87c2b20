/** Values that may be absent: SQL NULL, a missing row, a header that is not there. */
module Options {
  datatype Option<+T> = None | Some(value: T)
}
