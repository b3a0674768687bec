/** Small helpers shared by every module: the optional value and distinctness of a sequence. */
module Wrappers {

  /** The optional value used for every nullable field (`str | None`, `dict | None`). */
  datatype Option<+T> = None | Some(value: T)

  /** No element occurs twice (the keys of a dict, listed in order). */
  ghost predicate Distinct<T>(s: seq<T>)
  {
    forall i, j :: 0 <= i < j < |s| ==> s[i] != s[j]
  }
}
