/** Optional values, for the places where the Rust code returns an `Option` or would panic. */
module Wrappers {

  datatype Option<T> = None | Some(value: T)
}
