/** A value that may be missing; None is also how a panic or an error return is modelled. */
module Options {
  datatype Option<T> = None | Some(value: T)
}
