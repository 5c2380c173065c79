/** Java's nullable references, as values. */
module Wrappers {
  datatype Option<+T> = None | Some(value: T)
}
