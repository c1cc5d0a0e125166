/** Optional values: a JavaScript `undefined`/`null` or a missing match. */
module Wrappers {
  datatype Option<+T> = None | Some(value: T)
}
