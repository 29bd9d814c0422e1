// A value that may be absent: the null pointers and null results of the source.
module Options {
  datatype Option<T> = None | Some(value: T)
}
