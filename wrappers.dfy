/** The nullable values of the worker: a header or query parameter that may be missing. */
module Wrappers {
  datatype Option<+T> = None | Some(value: T)
}
