// A value that may be missing: the null pointers and error codes of the sources.

module Options {

  datatype Option<+T> = None | Some(value: T)
}
