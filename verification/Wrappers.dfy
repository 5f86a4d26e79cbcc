/** Values that may be missing, and queries that may fail. */
module Wrappers {
  datatype Option<+T> = None | Some(value: T)

  datatype Reply<+T> = Failed | Answered(value: T)
}
