/** The optional value used wherever the bot either has something or has nothing
    (no reply, no matching row, an argument that does not parse). */
module Wrappers {
  datatype Option<+T> = None | Some(value: T)
}
