/** The Some/None datatype used for record fields that may be absent. */
module Wrappers {

  datatype Option<+T> = None | Some(value: T)
}
