/** The result shape that stands for nil values, `ok` flags and error returns. */
module Wrappers {
  datatype Option<+T> = None | Some(value: T)
}
