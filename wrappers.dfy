/** Optional values: a request parameter that may be absent, a text that may not parse. */
module Wrappers {

  datatype Option<T> = None | Some(value: T)
}
