/** An optional value: a JavaScript value that may be missing (`undefined`, `null`). */
module Wrappers {

  datatype Option<T> = None | Some(value: T)
}
