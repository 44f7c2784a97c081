/** The optional value used for JavaScript's `null`, `NaN` and "no callback was made". */
module Wrappers {
  datatype Option<+T> = None | Some(value: T)
}
