/** Regrouping of concatenations, which the solver does not find on its own. */
module Sequences {
  lemma AppendAssoc<T>(a: seq<T>, b: seq<T>, c: seq<T>)
    ensures a + b + c == a + (b + c)
  {
  }

  lemma SliceCut<T>(d: seq<T>, start: nat, m: nat, n: nat)
    requires m <= n && start + n <= |d|
    ensures d[start..start + n][..m] == d[start..start + m] && d[start..start + n][m..] == d[start + m..start + n]
  {
  }

  lemma AppendAssoc4<T>(a: seq<T>, b: seq<T>, c: seq<T>, d: seq<T>)
    ensures a + b + c + d == a + (b + (c + d))
  {
  }
}
