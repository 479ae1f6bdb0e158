/** Optional values, used where the modelled code returns `None`. */
module Wrappers {

  datatype Option<+T> = None | Some(value: T)
}
