/** An optional value: a parsed day, a chosen candidate, or nothing. */
module Wrappers {
  datatype Option<+T> = None | Some(value: T)
}
