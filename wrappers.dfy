/** Optional values, used where the source would produce `null`/`undefined`. */
module Wrappers {

  datatype Option<+T> = None | Some(value: T)

}
