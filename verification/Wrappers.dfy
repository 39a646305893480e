/** Optional values: `None` stands for an absent document or for NaN. */
module Wrappers {

  datatype Option<+T> = None | Some(value: T)

}
