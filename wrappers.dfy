/** The optional value used for database rows that may be absent and for parses that may fail. */
module Wrappers {
  datatype Option<+T> = None | Some(value: T)
}
