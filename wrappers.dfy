/** Optional values: a Python `None` or an absent CSV cell / file / variable. */
module Wrappers {
  datatype Option<T> = None | Some(value: T)
}
