/** An optional value: a JSON field or column that may be absent or null. */
module Options {
  datatype Option<+T> = None | Some(value: T)
}
