/** The Option datatype used for results that may be absent: an empty
    history has no latest result and nothing to export. */
module Wrappers {

  datatype Option<+T> = None | Some(value: T)
}
