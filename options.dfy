/** An optional value: `None` stands for a Java `null` reference. */
module Options {
  datatype Option<+T> = None | Some(value: T)
}
