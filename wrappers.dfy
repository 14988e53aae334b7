/** Optional values: `null`/`undefined` in the dashboard become `None`. */
module Wrappers {

  datatype Option<+T> = None | Some(value: T)
}
