/** Stock result type shared by the parsers of this project. */
module Options {
  datatype Option<+T> = None | Some(value: T)
}
