/** Absent/present values, used where the original returns None instead of
    raising. */
module Wrappers {

  datatype Option<+T> = None | Some(value: T)
}
