/** The conventional Some/None datatype, standing in for a nil-able Go pointer. */
module Wrappers {

  datatype Option<+T> = None | Some(value: T)

}
