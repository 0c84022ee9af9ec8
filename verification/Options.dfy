/** A value that may be missing: a Python `None` or an SQL NULL. */
module Options {
  datatype Option<+T> = None | Some(value: T)
}
