/** The optional value used for Python's `None` and for fields that may not parse. */
module Wrappers {

  datatype Option<+T> = None | Some(value: T)

}
