/** The stock optional value: a read that may fail, a key that may be absent. */
module Wrappers {
  datatype Option<+T> = None | Some(value: T)
}
