/** Small notions that several modules share. */
module Basics {

  function Min(a: int, b: int): int {
    if a <= b then a else b
  }

  /** -1, 0 or 1, as comparisons return it. */
  function Sign(less: bool, greater: bool): int {
    if less then -1 else if greater then 1 else 0
  }

  predicate Distinct<T(==)>(s: seq<T>) {
    forall i, j :: 0 <= i < j < |s| ==> s[i] != s[j]
  }

  lemma Cat<T>(a: seq<T>, b: seq<T>, c: seq<T>)
    ensures (a + b) + c == a + (b + c)
  {
  }
}
