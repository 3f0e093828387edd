/** Option, used for JavaScript's `undefined`, `null` and absent values. */
module Wrappers {

  datatype Option<+T> = None | Some(value: T)
}
