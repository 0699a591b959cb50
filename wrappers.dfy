/** The optional value used where the dashboard reads `undefined` or `null`. */
module Wrappers {

  datatype Option<+T> = None | Some(value: T)

}
