/** The optional value used for React's `null` state and for collaborators that may fail. */
module Wrappers {

  datatype Option<+T> = None | Some(value: T)
}
