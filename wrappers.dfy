/** Option, for values the source represents as `None` or as a raised exception. */
module Wrappers {
  datatype Option<+T> = None | Some(value: T)
}
