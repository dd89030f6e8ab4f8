/** A value that may be absent: a nullable database column or an option left undefined. */
module Optional {
  datatype Option<+T> = None | Some(value: T)
}
