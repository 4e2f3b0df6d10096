/** Optional values, for the source's "nothing found" / "ignored input" cases. */
module Wrappers {
  datatype Option<+T> = None | Some(value: T)
}
