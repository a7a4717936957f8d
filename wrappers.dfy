/** The optional value used wherever the agent code returns early or may find nothing. */
module Wrappers {

  datatype Option<+T> = None | Some(value: T)
}
