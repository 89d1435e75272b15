/** Optional values: JavaScript's `null` for a missing problem and `NaN` for input
    that does not parse as an integer. */
module Wrappers {

  datatype Option<+T> = None | Some(value: T)
}
