/** Option, for the values the source leaves `null` or `undefined`. */
module Wrappers {

  datatype Option<+T> = None | Some(value: T)
}
