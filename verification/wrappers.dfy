/** Failure-compatible wrapper used for the values the program may lack:
    a missing timestamp (Python's `None`) and a speech-synthesis call that raised. */
module Wrappers {

  datatype Option<+T> = None | Some(value: T)
}
