/** A value that may be missing: an unset setting, a refused reading, no result. */
module Options {
  datatype Option<+T> = None | Some(value: T)
}
