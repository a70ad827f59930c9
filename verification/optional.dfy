/** A value that may be absent: an optional command-line argument, a spawn that may fail. */
module Optional {
  datatype Option<T> = None | Some(value: T)
}
