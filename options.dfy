/** An optional value, for lookups that may miss and parses that may fail. */
module Options {

  datatype Option<+T> = None | Some(value: T)
}
