/** The one value-or-nothing datatype the other modules share. */
module Options {
  datatype Option<+T> = None | Some(value: T)
}
