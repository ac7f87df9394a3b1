/** Optional values: a JSON field or query parameter that may be absent,
    and the result of a parse that may yield NaN. */
module Wrappers {

  datatype Option<+T> = None | Some(value: T)
}
