/** The optional value used wherever the source returns "nothing" or false. */
module Wrappers {

  datatype Option<+T> = None | Some(value: T)

}
