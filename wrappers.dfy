/** Optional values: the `T | null` of the chime record and the "nothing stored" of the store. */
module Wrappers {

  datatype Option<+T> = None | Some(value: T)
}
