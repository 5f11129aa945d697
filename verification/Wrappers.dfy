/** A value that may be missing, and the search for a position. */
module Wrappers {
  /** NULL, -1, or a constant that stands for nothing. */
  datatype Option<+T> = None | Some(value: T)

  /** The first position whose element satisfies p, |s| when there is none. */
  function FirstWhere<T>(s: seq<T>, p: T -> bool): (i: nat)
    ensures i <= |s| && (i < |s| ==> p(s[i])) && forall j :: 0 <= j < i ==> !p(s[j])
  {
    if s == [] || p(s[0]) then 0 else 1 + FirstWhere(s[1..], p)
  }
}
