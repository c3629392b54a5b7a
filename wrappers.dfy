/** Optional values: a quote that could not be fetched, a quote field the provider left out. */
module Wrappers {

  datatype Option<+T> = None | Some(value: T)
}
