/** Optional values: `None` stands for a null pointer, a missing key or an "end" iterator. */
module Wrappers {

  datatype Option<+T> = None | Some(value: T)
}
