/** An optional value: a JSON field that may be missing, or an error slot that may be null. */
module Wrappers {
  datatype Option<+T> = None | Some(value: T)
}
