/** A value that may be absent, for request fields that may be missing. */
module Optional {
  datatype Option<+T> = None | Some(value: T)
}
