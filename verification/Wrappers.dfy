/** The optional value used by every component of the agent model. */
module Wrappers {
  datatype Option<+T> = None | Some(value: T)
}
