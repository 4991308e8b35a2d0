/** A value that may be absent: a missing query parameter, a row that was not found. */
module Optional {

  datatype Option<+T> = None | Some(value: T)
}
