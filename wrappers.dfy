/** The optional value used wherever the model reports "no value". */
module Wrappers {

  datatype Option<+T> = None | Some(value: T)

}
