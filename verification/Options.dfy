/** A value or nothing: null pointers, and calls after which the source halts. */
module Options {
  datatype Option<+T> = None | Some(value: T)
}
