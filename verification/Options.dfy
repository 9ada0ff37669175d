/** The optional value, for `null`, `undefined` and thrown errors alike. */
module Options {
  datatype Option<+T> = None | Some(value: T)
}
