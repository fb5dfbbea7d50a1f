/** The optional value returned by a dictionary lookup or an environment read. */
module Wrappers {

  datatype Option<+T> = None | Some(value: T)
}
