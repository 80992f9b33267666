/** Python's `None` next to a present value, as the parsers return it. */
module Wrappers {

  datatype Option<+T> = None | Some(value: T)
}
