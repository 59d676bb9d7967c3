/** Optional values: the model's counterpart of a JavaScript `string | null`. */
module Wrappers {

  datatype Option<+T> = None | Some(value: T)
}
