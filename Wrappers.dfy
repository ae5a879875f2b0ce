/** The optional value used wherever the source has `null` or `NaN`. */
module Wrappers {

  datatype Option<T> = None | Some(value: T)
}
