/** Optional values, for JavaScript's `undefined` / absent properties. */
module Wrappers {

  datatype Option<+T> = None | Some(value: T)
}
