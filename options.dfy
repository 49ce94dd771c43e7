/** Kotlin's nullable types (`T?`) as an explicit option. */
module Options {
  datatype Option<+T> = None | Some(value: T)
}
