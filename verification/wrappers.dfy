/** Optional values: the model's explicit form of a pandas missing value (NaN),
    or of a step that produces no result. */
module Wrappers {

  datatype Option<+T> = None | Some(value: T)
}
