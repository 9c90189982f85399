/** Optional values: the model's stand-in for the `null` that the source returns on failure. */
module Wrappers {

  datatype Option<+T> = None | Some(value: T)
}
