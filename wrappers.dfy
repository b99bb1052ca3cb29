/** The optional value that `Array.prototype.find` returns (a record or `undefined`). */
module Wrappers {
  datatype Option<+T> = None | Some(value: T)
}
