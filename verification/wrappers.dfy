/** The optional value used wherever a regular-expression search may find nothing
    or a step of the script may stop with an exception. */
module Wrappers {

  datatype Option<+T> = None | Some(value: T)
}
