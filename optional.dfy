/** The usual Some/None wrapper, used for values the source may leave unset. */
module Optional {

  datatype Option<+T> = None | Some(value: T)
}
