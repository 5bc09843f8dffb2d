/** A value that may be absent: a missing entry, or an operation that panics. */
module Options {
  datatype Option<+T> = None | Some(value: T)
}
