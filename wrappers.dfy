/** The optional value used wherever the source returns `null`/`undefined` or may skip a call. */
module Wrappers {
  datatype Option<+T> = None | Some(value: T)
}
