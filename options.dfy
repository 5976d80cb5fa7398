/** A value that may be absent: a Python `None` or a missing lookup. */
module Options {

  datatype Option<T> = None | Some(value: T)
}
