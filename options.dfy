/** The usual Some/None wrapper, used for values JavaScript may leave null. */
module Options {
  datatype Option<+T> = None | Some(value: T)
}
