/** A value that may be absent: the result of a lookup that can fail. */
module Optional {
  datatype Option<T> = None | Some(value: T)
}
