/** Finite sets of 32-bit words kept as strictly increasing lists: sorting, weeding out duplicates, canonicity. */
module SortedSets {

  /** A 32-bit unsigned word: an AS number or a community value. */
  type Word = x: int | 0 <= x < 0x1_0000_0000

  function Last(s: seq<Word>): Word
    requires s != []
  {
    s[|s| - 1]
  }

  function Init(s: seq<Word>): seq<Word>
    requires s != []
  {
    s[..|s| - 1]
  }

  predicate Sorted(s: seq<Word>) {
    |s| <= 1 || (Last(Init(s)) <= Last(s) && Sorted(Init(s)))
  }

  predicate Increasing(s: seq<Word>) {
    |s| <= 1 || (Last(Init(s)) < Last(s) && Increasing(Init(s)))
  }

  function Members(s: seq<Word>): set<Word> {
    if s == [] then {} else Members(Init(s)) + {Last(s)}
  }

  lemma MembersIn(s: seq<Word>)
    ensures forall x :: x in Members(s) <==> x in s
  {
    if s != [] {
      assert s == Init(s) + [Last(s)];
    }
  }

  lemma NoMembers(s: seq<Word>)
    ensures Members(s) == {} <==> s == []
  {
    if s != [] {
      assert Last(s) in Members(s);
    }
  }

  lemma MembersConcat(a: seq<Word>, b: seq<Word>)
    ensures Members(a + b) == Members(a) + Members(b)
  {
    MembersIn(a);
    MembersIn(b);
    MembersIn(a + b);
  }

  lemma IncreasingLast(s: seq<Word>)
    requires s != [] && Increasing(s)
    ensures forall x <- Members(Init(s)) :: x < Last(s)
  {
    if |s| > 1 {
      IncreasingLast(Init(s));
    }
  }

  // ---------- sorting, as qsort with the order on words ----------

  function Insert(x: Word, s: seq<Word>): (r: seq<Word>)
    requires Sorted(s)
    ensures r != [] && Sorted(r) && Last(r) == if s != [] && x < Last(s) then Last(s) else x
    ensures Members(r) == Members(s) + {x}
  {
    if s == [] || Last(s) <= x then
      assert Init(s + [x]) == s;
      s + [x]
    else
      var t := Insert(x, Init(s));
      assert Init(t + [Last(s)]) == t;
      t + [Last(s)]
  }

  function Sort(s: seq<Word>): (r: seq<Word>)
    ensures Sorted(r) && Members(r) == Members(s)
  {
    if s == [] then [] else Insert(Last(s), Sort(Init(s)))
  }

  function Count(x: Word, s: seq<Word>): nat {
    if s == [] then 0 else Count(x, Init(s)) + if Last(s) == x then 1 else 0
  }

  lemma {:induction false} InsertCounts(x: Word, s: seq<Word>, y: Word)
    requires Sorted(s)
    ensures Count(y, Insert(x, s)) == Count(y, s) + if x == y then 1 else 0
  {
    if s == [] || Last(s) <= x {
      assert Init(s + [x]) == s;
    } else {
      InsertCounts(x, Init(s), y);
      assert Init(Insert(x, Init(s)) + [Last(s)]) == Insert(x, Init(s));
    }
  }

  /** Sorting permutes: every word occurs as often as before. */
  lemma {:induction false} SortPermutes(s: seq<Word>, y: Word)
    ensures Count(y, Sort(s)) == Count(y, s)
  {
    if s != [] {
      SortPermutes(Init(s), y);
      InsertCounts(Last(s), Sort(Init(s)), y);
    }
  }

  // ---------- weeding out duplicates of a sorted list ----------

  /** Keeps one of each run of equal neighbours. */
  function Weed(s: seq<Word>): seq<Word> {
    if |s| <= 1 then s
    else if Last(s) == Last(Init(s)) then Weed(Init(s))
    else Weed(Init(s)) + [Last(s)]
  }

  lemma {:induction false} WeedSorted(s: seq<Word>)
    requires Sorted(s)
    ensures Increasing(Weed(s)) && Members(Weed(s)) == Members(s)
    ensures s != [] ==> Weed(s) != [] && Last(Weed(s)) == Last(s)
  {
    if |s| > 1 {
      var w := Weed(Init(s));
      WeedSorted(Init(s));
      if Last(s) != Last(Init(s)) {
        assert Init(w + [Last(s)]) == w;
      }
    }
  }

  /** The canonical list of a collection of words. */
  function Canon(s: seq<Word>): seq<Word> {
    Weed(Sort(s))
  }

  lemma CanonIsSet(s: seq<Word>)
    ensures Increasing(Canon(s)) && Members(Canon(s)) == Members(s)
  {
    WeedSorted(Sort(s));
  }

  /** Strictly increasing lists with the same members are the same list. */
  lemma {:induction false} IncreasingUnique(a: seq<Word>, b: seq<Word>)
    requires Increasing(a) && Increasing(b) && Members(a) == Members(b)
    ensures a == b
  {
    NoMembers(a);
    NoMembers(b);
    if a != [] {
      IncreasingLast(a);
      IncreasingLast(b);
      assert Last(a) in Members(b) && Last(b) in Members(a);
      assert Members(Init(a)) == Members(a) - {Last(a)};
      assert Members(Init(b)) == Members(b) - {Last(b)};
      IncreasingUnique(Init(a), Init(b));
      assert a == Init(a) + [Last(a)] && b == Init(b) + [Last(b)];
    }
  }

  /** Two collections have the same canonical list exactly when they have the same members. */
  lemma CanonUnique(a: seq<Word>, b: seq<Word>)
    ensures Canon(a) == Canon(b) <==> Members(a) == Members(b)
  {
    CanonIsSet(a);
    CanonIsSet(b);
    if Members(a) == Members(b) {
      IncreasingUnique(Canon(a), Canon(b));
    }
  }

  lemma CanonFixpoint(a: seq<Word>)
    ensures Increasing(a) <==> Canon(a) == a
    ensures Canon(Canon(a)) == Canon(a)
  {
    CanonIsSet(a);
    if Increasing(a) {
      IncreasingUnique(Canon(a), a);
    }
    CanonIsSet(Canon(a));
    IncreasingUnique(Canon(Canon(a)), Canon(a));
  }

  /** The in-place weeding loop: a sorted array's first n cells become its distinct values, in order. */
  method WeedInPlace(a: array<Word>) returns (n: nat)
    modifies a
    ensures n <= a.Length && a[..n] == Weed(old(a[..]))
  {
    if a.Length == 0 {
      return 0;
    }
    ghost var s := a[..];
    var tail := 0;
    for i := 1 to a.Length
      invariant 0 <= tail < i
      invariant a[..tail + 1] == Weed(s[..i]) && a[tail] == s[i - 1]
      invariant forall j :: i <= j < a.Length ==> a[j] == s[j]
    {
      assert Init(s[..i + 1]) == s[..i];
      if a[tail] == a[i] {
        continue;
      }
      tail := tail + 1;
      if tail < i {
        a[tail] := a[i];
      }
      assert a[..tail + 1] == a[..tail] + [a[tail]];
    }
    assert s[..a.Length] == s;
    n := tail + 1;
  }

  method ToArray(s: seq<Word>) returns (a: array<Word>)
    ensures fresh(a) && a[..] == s
  {
    a := new Word[|s|](i requires 0 <= i < |s| => s[i]);
  }

  /** qsort, then the weeding loop on the array. */
  method SortUnique(s: seq<Word>) returns (r: seq<Word>)
    ensures r == Canon(s)
  {
    var a := ToArray(Sort(s));
    var n := WeedInPlace(a);
    r := a[..n];
  }
}
