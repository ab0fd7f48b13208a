/** The optional value, for what JavaScript leaves undefined. */
module Wrappers {
  datatype Option<+T> = None | Some(value: T)
}
