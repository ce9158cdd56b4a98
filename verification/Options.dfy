/** A value that may be absent: Python's and JavaScript's `None`, `null`, `undefined`. */
module Options {
  datatype Option<+T> = None | Some(value: T)
}
