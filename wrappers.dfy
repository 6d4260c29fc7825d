/** The optional value used wherever PHP returns `false` or `null` for "nothing". */
module Wrappers {

  datatype Option<+T> = None | Some(value: T)
}
