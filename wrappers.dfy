/** Optional values, standing in for TypeScript's `T | null` and for absent object keys. */
module Wrappers {

  datatype Option<+T> = None | Some(value: T)
}
