/** The optional value used for the results of decoding steps that can fail. */
module Wrappers {

  datatype Option<+T> = None | Some(value: T)
}
