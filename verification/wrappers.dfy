/**
 A value that may be absent: a null pointer that is handled, a lookup that may miss, or a
 call that may fail.
 */
module Wrappers {
  datatype Option<T> = None | Some(value: T)
}
