/** Optional values: an absent pointer, a nil error, a lookup that missed. */
module Wrappers {

  datatype Option<+T> = None | Some(value: T)

}
