/** Small helper datatypes shared by the page models. */
module Wrappers {

  /** A value that may be absent: JavaScript's `null` / `undefined` for a state slot. */
  datatype Option<+T> = None | Some(value: T)
}
