/** The optional value used where the source works with `undefined`. */
module Wrappers {

  datatype Option<+T> = None | Some(value: T)
}
