/** A value or none, in place of Go's nil. */
module Options {
  datatype Option<+T> = None | Some(value: T)
}
