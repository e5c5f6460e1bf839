/** The optional value used for Python's "missing key" and "call raised" cases. */
module Wrappers {
  datatype Option<+T> = None | Some(value: T)
}
