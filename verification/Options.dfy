/** The value that may be absent: SQL null, an undefined field, a lookup without result. */
module Options {
  datatype Option<+T> = None | Some(value: T)
}
