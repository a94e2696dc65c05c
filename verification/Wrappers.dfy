/** Values that may be absent, results that may be errors, and computations that may panic. */
module Wrappers {
  datatype Option<+T> = None | Some(value: T)

  datatype Result<+T> = Ok(value: T) | Err

  datatype Attempt<+T> = Returns(value: T) | Panics

  /** What Go reads from a map of strings: the empty string for a missing key. */
  function Get(m: map<string, string>, key: string): string {
    if key in m then m[key] else ""
  }
}
