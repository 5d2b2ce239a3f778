/** The optional values that Go writes as pointers that may be nil. */
module Wrappers {

  datatype Option<+T> = None | Some(value: T)

}
