/** The optional value used where the plugins return `undefined` or `null`. */
module Wrappers {

  datatype Option<+T> = None | Some(value: T)

}
