/** The optional value used for lookups that may find nothing and parses that may fail. */
module Options {

  datatype Option<+T> = None | Some(value: T)
}
