/** The two result shapes used throughout: a value that may be absent (a nil pointer or a nil
    slice in Go), and a call that returns a value, returns an error, or panics. */
module Wrappers {

  datatype Option<+T> = None | Some(value: T) {
    function GetOr(default: T): T {
      match this
      case Some(v) => v
      case None => default
    }
  }

  /** `Panic` is a run-time panic of the Go code (a nil dereference, a slice out of range, a write
      to a nil map), which callers cannot tell from an ordinary crash. */
  datatype Outcome<+T, +E> = Ok(value: T) | Err(error: E) | Panic
}
