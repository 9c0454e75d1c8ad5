/** Optional values: `undefined` in the scripts, or a stage the derivative is not defined at. */
module Wrappers {
  datatype Option<+T> = None | Some(value: T)
}
