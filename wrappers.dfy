/** The "value or nothing" result of a lookup that never fails. */
module Wrappers {

  datatype Option<+T> = None | Some(value: T)
}
