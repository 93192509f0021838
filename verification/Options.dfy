/** The usual optional value: a nullable column, a missing match, an unreadable query. */
module Options {
  datatype Option<+T> = None | Some(value: T)
}
