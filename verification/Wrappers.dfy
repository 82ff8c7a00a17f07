/** A value that may be absent. */
module Wrappers {

  datatype Option<+T> = None | Some(value: T)

  /** The elements that satisfy a condition, in order. */
  function Filter<T>(s: seq<T>, keep: T -> bool): seq<T> {
    if s == [] then []
    else Filter(s[..|s| - 1], keep) + if keep(s[|s| - 1]) then [s[|s| - 1]] else []
  }
}
