/** The optional value every module shares: a missing handle, key or result is None. */
module Options {
  datatype Option<T> = None | Some(value: T)
}
