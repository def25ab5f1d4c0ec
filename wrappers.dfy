/** The optional value used for nullable fields and for the cursor's "no token". */
module Wrappers {
  datatype Option<+T> = None | Some(value: T)
}
