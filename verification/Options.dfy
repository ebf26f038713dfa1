/** The optional value that stands for the source's `null` / `undefined` results. */
module Options {
  datatype Option<+T> = None | Some(value: T)
}
