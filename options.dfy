/** Java's nullable references: `null` is `None`. */
module Options {
  datatype Option<+T> = None | Some(value: T)
}
