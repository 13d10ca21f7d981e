/** Optional values, used for absent query parameters and for
    `parseInt` results that are `NaN`. */
module Wrappers {

  datatype Option<+T> = None | Some(value: T)
}
