/** An optional value: used where the source produces a non-finite float. */
module Wrappers {
  datatype Option<+T> = None | Some(value: T)
}
