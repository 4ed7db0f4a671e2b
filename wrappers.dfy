/** A value that may be absent: a `null` attribute, a missing storage key,
    an element that `querySelector` did not find. */
module Wrappers {

  datatype Option<+T> = None | Some(value: T)
}
