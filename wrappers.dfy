/** Optional values: JavaScript's `undefined` / `null` results are `None`. */
module Wrappers {

  datatype Option<+T> = None | Some(value: T)

}
