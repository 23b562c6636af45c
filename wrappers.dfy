/** The optional value used wherever a JavaScript field or result may be
    `null` or `undefined`. */
module Wrappers {

  datatype Option<+T> = None | Some(value: T)
}
