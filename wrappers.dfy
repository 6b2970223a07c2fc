/** The optional value used wherever the Go code reports "nothing" or an ignored error. */
module Wrappers {

  datatype Option<+T> = None | Some(value: T)
}
