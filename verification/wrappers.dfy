/** The optional value used wherever the programs use a null pointer or an
    empty matrix to signal "nothing was produced". */
module Wrappers {

  datatype Option<+T> = None | Some(value: T)
}
