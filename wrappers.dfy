/** The usual optional value: a parse that may fail, a lookup that may miss. */
module Wrappers {
  datatype Option<+T> = None | Some(value: T)
}
