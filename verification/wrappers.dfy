/** The optional value returned by `pop`, `next` and the lookups of the library. */
module Wrappers {
  datatype Option<T> = None | Some(value: T)
}
