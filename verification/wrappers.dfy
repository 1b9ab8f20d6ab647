/** Java `null` for a payload reference, made explicit. */
module Wrappers {
  datatype Option<+T> = None | Some(value: T)
}
