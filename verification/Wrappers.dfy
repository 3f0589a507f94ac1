/** Optional values, in place of std::optional and of sentinel results. */
module Wrappers {

  datatype Option<+T> = None | Some(value: T)
}
