/** The usual optional-value datatype, used for the programs' error exits. */
module Wrappers {
  datatype Option<+T> = None | Some(value: T)
}
