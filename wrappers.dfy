/** Optional values, used for "not found" and "not decodable" results. */
module Wrappers {
  datatype Option<+T> = None | Some(value: T)
}
