/** The optional value used where the component holds a JavaScript `null` or `NaN`. */
module Wrappers {

  datatype Option<+T> = None | Some(value: T)
}
