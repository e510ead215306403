/** The one wrapper type the models share: Python's `X | None`. */
module Wrappers {
  datatype Option<+T> = None | Some(value: T)
}
