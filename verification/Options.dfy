/** A value that may be missing, shared by every component. */
module Options {

  datatype Option<T> = None | Some(value: T)
}
