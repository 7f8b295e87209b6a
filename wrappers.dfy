/** The optional value used wherever the bot may fail to read something. */
module Wrappers {

  datatype Option<+T> = None | Some(value: T)
}
