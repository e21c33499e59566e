/** The Some/None datatype used wherever the Java code returns a possibly-null reference. */
module Optional {

  datatype Option<+T> = None | Some(value: T)
}
