/** The Some/None datatype shared by the whole project. */
module Options {
  datatype Option<+T> = None | Some(value: T)
}
