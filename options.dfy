/** The optional value used where the Java code returns null or may not find what it looks for. */
module Options {
  datatype Option<+T> = None | Some(value: T)
}
