/** A result that may be missing: the null pointers and negative codes of the C interfaces. */
module Options {
  datatype Option<T> = None | Some(value: T)
}
