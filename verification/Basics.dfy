/** Small notions that several modules share. */
module Basics {
  function Min(a: int, b: int): int {
    if a < b then a else b
  }

  function One(b: bool): nat {
    if b then 1 else 0
  }

  ghost predicate Distinct<T>(s: seq<T>) {
    forall i, j :: 0 <= i < j < |s| ==> s[i] != s[j]
  }
}
