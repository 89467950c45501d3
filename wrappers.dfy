/** Optional values: a JavaScript `undefined` result, a failed parse. */
module Wrappers {

  datatype Option<+T> = None | Some(value: T)
}
