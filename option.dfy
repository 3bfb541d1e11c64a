/** The "value or nothing" result used where the script returns early without a value. */
module Wrappers {
  datatype Option<+T> = None | Some(value: T)
}
