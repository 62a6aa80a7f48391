/** Optional values: JavaScript's `null` / `undefined` / absent key. */
module Wrappers {

  datatype Option<+T> = None | Some(value: T)
}
