/** Optional values: a JSON value that may be `null`, or a cache slot that may be empty. */
module Wrappers {

  datatype Option<+T> = None | Some(value: T)
}
