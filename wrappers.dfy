/** Small failure-compatible wrapper shared by the SBML writer model. */
module Wrappers {

  datatype Option<+T> = None | Some(value: T)
}
