/** The optional value used wherever the source can fail or find nothing. */
module Options {
  datatype Option<+T> = None | Some(value: T)
}
