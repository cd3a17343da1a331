// Optional values, used where the game code returns None or False for "nothing here".
module Wrappers {
  datatype Option<T> = None | Some(value: T)
}
