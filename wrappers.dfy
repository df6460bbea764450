/** The optional value used wherever a Python call may raise or return None. */
module Wrappers {

  datatype Option<+T> = None | Some(value: T)
}
