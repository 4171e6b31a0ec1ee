/** The Some/None datatype, standing in for JavaScript's `null` where a value may be missing. */
module Wrappers {

  datatype Option<+T> = None | Some(value: T)
}
