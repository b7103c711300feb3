/** Optional values, standing for a call that may fail (sbrk) or a read that may go wrong. */
module Wrappers {
  datatype Option<+T> = None | Some(value: T)
}
