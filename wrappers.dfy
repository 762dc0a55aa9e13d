/** The optional result used where the script gives up instead of producing output. */
module Wrappers {

  datatype Option<+T> = None | Some(value: T)
}
