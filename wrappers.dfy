/** The optional value used where the watcher has "nothing" as an outcome:
    no state file content, no message sent. */
module Wrappers {
  datatype Option<+T> = None | Some(value: T)
}
