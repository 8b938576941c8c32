/** Optional values: the model of a JavaScript field that may hold `null`. */
module Wrappers {

  datatype Option<+T> = None | Some(value: T)
}
