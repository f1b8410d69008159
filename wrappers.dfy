/** The optional value used for results of primitives that may raise. */
module Wrappers {

  datatype Option<+T> = None | Some(value: T)
}
