/** The optional value used for searches that can run out of random draws. */
module Wrappers {

  datatype Option<+T> = None | Some(value: T)
}
