/** Community lists: canonical sets of 32-bit values, with a text form. */
module Community {
  import opened SortedSets

  // ---------- lists as sets ----------

  predicate Distinct(s: seq<Word>) {
    s == [] || (Last(s) !in Members(Init(s)) && Distinct(Init(s)))
  }

  lemma SnocIncreasing(s: seq<Word>, x: Word)
    requires Increasing(s) && (s == [] || Last(s) < x)
    ensures Increasing(s + [x])
  {
    assert Init(s + [x]) == s;
  }

  lemma {:induction false} InsertIncreasing(x: Word, s: seq<Word>)
    requires Sorted(s) && Increasing(s) && x !in Members(s)
    ensures Increasing(Insert(x, s))
  {
    if s == [] || Last(s) <= x {
      assert s != [] ==> Last(s) in Members(s);
      SnocIncreasing(s, x);
    } else {
      InsertIncreasing(x, Init(s));
      IncreasingLast(s);
      var t := Insert(x, Init(s));
      assert Init(s) != [] ==> Last(Init(s)) in Members(Init(s));
      SnocIncreasing(t, Last(s));
    }
  }

  /** Sorting a list without duplicates gives the canonical list. */
  lemma {:induction false} SortDistinct(s: seq<Word>)
    requires Distinct(s)
    ensures Increasing(Sort(s)) && Sort(s) == Canon(s)
  {
    if s != [] {
      SortDistinct(Init(s));
      InsertIncreasing(Last(s), Sort(Init(s)));
    }
    CanonIsSet(s);
    IncreasingUnique(Sort(s), Canon(s));
  }

  lemma {:induction false} IncreasingFront(s: seq<Word>)
    requires s != [] && Increasing(s)
    ensures Increasing(s[1..]) && forall x :: x in s[1..] ==> s[0] < x
  {
    if |s| > 1 {
      IncreasingFront(Init(s));
      assert Init(s)[1..] == Init(s[1..]);
      assert s[1..] == Init(s)[1..] + [Last(s)];
      assert |s| > 2 ==> Last(Init(s)) in Init(s)[1..];
    }
  }

  lemma MembersFront(s: seq<Word>)
    requires s != []
    ensures Members(s) == {s[0]} + Members(s[1..])
  {
    MembersIn(s);
    MembersIn(s[1..]);
    assert s == [s[0]] + s[1..];
  }

  // ---------- the one-pass match ----------

  /** Whether the second list is found, in order, while passing once over the first. */
  predicate Embeds(a: seq<Word>, b: seq<Word>) {
    if b == [] then true
    else if a == [] then false
    else Embeds(a[1..], if a[0] == b[0] then b[1..] else b)
  }

  lemma {:induction false} EmbedsShorter(a: seq<Word>, b: seq<Word>)
    requires Embeds(a, b)
    ensures |b| <= |a|
  {
    if a != [] && b != [] {
      EmbedsShorter(a[1..], if a[0] == b[0] then b[1..] else b);
    }
  }

  lemma LongerNotEmbedded(a: seq<Word>, b: seq<Word>)
    requires |a| < |b|
    ensures !Embeds(a, b)
  {
    if Embeds(a, b) {
      EmbedsShorter(a, b);
    }
  }

  /** On canonical lists the one-pass match decides inclusion. */
  lemma {:induction false} EmbedsIsSubset(a: seq<Word>, b: seq<Word>)
    requires Increasing(a) && Increasing(b)
    ensures Embeds(a, b) <==> Members(b) <= Members(a)
  {
    NoMembers(b);
    if b != [] && a != [] {
      IncreasingFront(a);
      IncreasingFront(b);
      MembersFront(a);
      MembersFront(b);
      MembersIn(a[1..]);
      MembersIn(b[1..]);
      EmbedsIsSubset(a[1..], if a[0] == b[0] then b[1..] else b);
    }
  }

  lemma MatchMeans(a: seq<Word>, b: seq<Word>)
    ensures Increasing(a) && Increasing(b) ==> (Embeds(a, b) <==> Members(b) <= Members(a))
  {
    if Increasing(a) && Increasing(b) {
      EmbedsIsSubset(a, b);
    }
  }

  // ---------- removal ----------

  /** The list without the first occurrence of a value. */
  function Removed(s: seq<Word>, x: Word): seq<Word> {
    if s == [] then [] else if s[0] == x then s[1..] else [s[0]] + Removed(s[1..], x)
  }

  function RemovedAll(s: seq<Word>, xs: seq<Word>): seq<Word> {
    if xs == [] then s else Removed(RemovedAll(s, Init(xs)), Last(xs))
  }

  function Occurrences(x: Word, s: seq<Word>): nat {
    if s == [] then 0 else (if s[0] == x then 1 else 0) + Occurrences(x, s[1..])
  }

  lemma {:induction false} OccursIn(x: Word, s: seq<Word>)
    ensures Occurrences(x, s) > 0 <==> x in s
  {
    if s != [] {
      OccursIn(x, s[1..]);
      assert s == [s[0]] + s[1..];
    }
  }

  lemma {:induction false} RemovedOccurrences(s: seq<Word>, x: Word, y: Word)
    ensures Occurrences(y, Removed(s, x)) == if x == y && x in s then Occurrences(y, s) - 1 else Occurrences(y, s)
  {
    if s != [] && s[0] != x {
      RemovedOccurrences(s[1..], x, y);
      var r := Removed(s[1..], x);
      assert ([s[0]] + r)[1..] == r;
      assert s == [s[0]] + s[1..];
    }
    OccursIn(x, s);
  }

  lemma RemovedMember(s: seq<Word>, x: Word, y: Word)
    ensures y in Members(Removed(s, x)) <==> y in Members(s) && (y != x || Occurrences(x, s) > 1)
  {
    MembersIn(s);
    MembersIn(Removed(s, x));
    RemovedOccurrences(s, x, y);
    OccursIn(y, s);
    OccursIn(y, Removed(s, x));
  }

  /** Deleting a value takes it out of the set exactly when the list holds it at most once. */
  lemma RemovedIsDifference(s: seq<Word>, x: Word)
    ensures Members(Removed(s, x)) == Members(s) - {x} <==> Occurrences(x, s) <= 1
    ensures Members(s) - {x} <= Members(Removed(s, x)) <= Members(s)
  {
    forall y ensures y in Members(Removed(s, x)) <==> y in Members(s) && (y != x || Occurrences(x, s) > 1) {
      RemovedMember(s, x, y);
    }
    if Occurrences(x, s) > 1 {
      OccursIn(x, s);
      MembersIn(s);
      assert x in Members(Removed(s, x));
    }
  }

  /** Deleting a value from a list that holds it twice leaves it a member. */
  lemma RepeatedStays(x: Word)
    ensures Members(Removed([x, x], x)) == {x} == Members([x, x])
  {
    assert Removed([x, x], x) == [x];
    MembersIn([x]);
    MembersIn([x, x]);
  }

  lemma {:induction false} RemovedIncreasing(s: seq<Word>, x: Word)
    requires Increasing(s)
    ensures Increasing(Removed(s, x)) && Members(Removed(s, x)) == Members(s) - {x}
  {
    if s != [] {
      IncreasingFront(s);
      MembersFront(s);
      MembersIn(s[1..]);
      if s[0] != x {
        RemovedIncreasing(s[1..], x);
        MembersIn(Removed(s[1..], x));
        IncreasingCons(s[0], Removed(s[1..], x));
        MembersFront(Removed(s, x));
        assert Removed(s, x)[1..] == Removed(s[1..], x);
      }
    }
  }

  lemma {:induction false} IncreasingCons(x: Word, s: seq<Word>)
    requires Increasing(s) && forall y :: y in s ==> x < y
    ensures Increasing([x] + s)
  {
    if s != [] {
      assert s == Init(s) + [Last(s)];
      assert Last(s) in s && forall y :: y in Init(s) ==> y in s;
      IncreasingCons(x, Init(s));
      SnocIncreasing([x] + Init(s), Last(s));
      assert [x] + s == [x] + Init(s) + [Last(s)];
    }
  }

  /** Deleting one canonical list from another is set difference. */
  lemma {:induction false} DeleteIsDifference(s: seq<Word>, xs: seq<Word>)
    requires Increasing(s)
    ensures Increasing(RemovedAll(s, xs)) && Members(RemovedAll(s, xs)) == Members(s) - Members(xs)
  {
    if xs != [] {
      DeleteIsDifference(s, Init(xs));
      RemovedIncreasing(RemovedAll(s, Init(xs)), Last(xs));
    }
  }

  /** Merging and sorting is set union. */
  lemma MergeIsUnion(a: seq<Word>, b: seq<Word>)
    ensures Increasing(Canon(a + b)) && Members(Canon(a + b)) == Members(a) + Members(b)
  {
    CanonIsSet(a + b);
    MembersConcat(a, b);
  }

  /** Canonical lists are equal exactly when they are the same set. */
  lemma EqualIsSameSet(a: seq<Word>, b: seq<Word>)
    requires Increasing(a) && Increasing(b)
    ensures a == b <==> Members(a) == Members(b)
  {
    if Members(a) == Members(b) {
      IncreasingUnique(a, b);
    }
  }

  lemma {:induction false} RemovedAt(s: seq<Word>, i: nat)
    requires i < |s| && s[i] !in s[..i]
    ensures Removed(s, s[i]) == s[..i] + s[i + 1..]
  {
    if i > 0 {
      var t := s[1..];
      assert s[..i] == [s[0]] + t[..i - 1] && s[0] in s[..i];
      RemovedAt(t, i - 1);
      assert t[i..] == s[i + 1..];
    }
  }

  lemma {:induction false} RemovedAbsent(s: seq<Word>, x: Word)
    requires x !in s
    ensures Removed(s, x) == s
  {
    if s != [] {
      RemovedAbsent(s[1..], x);
    }
  }

  class Communities {
    var val: seq<Word>

    constructor (v: seq<Word>)
      ensures val == v
    {
      val := v;
    }

    method AddVal(x: Word)
      modifies this
      ensures val == old(val) + [x]
    {
      val := val + [x];
    }

    /** Delete the first occurrence of a value. */
    method DelVal(x: Word)
      modifies this
      ensures val == Removed(old(val), x)
    {
      var i := 0;
      while i < |val|
        invariant i <= |val| && val == old(val) && x !in val[..i]
      {
        if val[i] == x {
          RemovedAt(val, i);
          val := val[..i] + val[i + 1..];
          return;
        }
        assert val[..i + 1] == val[..i] + [val[i]];
        i := i + 1;
      }
      assert val[..i] == val;
      RemovedAbsent(val, x);
    }

    /** Delete every value of another list; between canonical lists, set difference. */
    method Delete(other: Communities)
      requires other != this
      modifies this
      ensures val == RemovedAll(old(val), other.val)
      ensures old(Increasing(val)) ==> Increasing(val) && Members(val) == old(Members(val)) - Members(other.val)
    {
      var i := 0;
      while i < |other.val|
        invariant i <= |other.val| && other.val == old(other.val) && val == RemovedAll(old(val), other.val[..i])
      {
        assert Init(other.val[..i + 1]) == other.val[..i];
        DelVal(other.val[i]);
        i := i + 1;
      }
      assert other.val[..i] == other.val;
      if old(Increasing(val)) {
        DeleteIsDifference(old(val), other.val);
      }
    }

    method Include(x: Word) returns (b: bool)
      ensures b <==> x in val
    {
      for i := 0 to |val|
        invariant x !in val[..i]
      {
        if val[i] == x {
          return true;
        }
        assert val[..i + 1] == val[..i] + [val[i]];
      }
      assert val[..|val|] == val;
      b := false;
    }

    /** The canonical list with the same values. */
    method UniqSort() returns (r: Communities)
      ensures fresh(r) && r.val == Canon(val) && Increasing(r.val) && Members(r.val) == Members(val)
    {
      r := new Communities([]);
      for i := 0 to |val|
        invariant fresh(r) && Distinct(r.val) && Members(r.val) == Members(val[..i])
      {
        assert Init(val[..i + 1]) == val[..i];
        var known := r.Include(val[i]);
        MembersIn(r.val);
        if !known {
          assert Init(r.val + [val[i]]) == r.val;
          r.AddVal(val[i]);
        }
      }
      assert val[..|val|] == val;
      SortDistinct(r.val);
      CanonUnique(r.val, val);
      CanonIsSet(val);
      r.val := Sort(r.val);
    }

    /** Append another list; sorted afterwards, set union. */
    method Merge(other: Communities)
      modifies this
      ensures val == old(val + other.val)
      ensures Increasing(Canon(val)) && Members(Canon(val)) == old(Members(val) + Members(other.val))
    {
      MergeIsUnion(val, other.val);
      val := val + other.val;
    }

    /** The one-pass match; on canonical lists, whether the first has every value of the second. */
    static method Match(a: Communities?, b: Communities?) returns (r: bool)
      ensures a == null || b == null ==> r == (a == b)
      ensures a != null && b != null ==> r == Embeds(a.val, b.val)
      ensures a != null && b != null && Increasing(a.val) && Increasing(b.val) ==>
        (r <==> Members(b.val) <= Members(a.val))
    {
      if a == null || b == null {
        return a == b;
      }
      MatchMeans(a.val, b.val);
      if |a.val| < |b.val| {
        LongerNotEmbedded(a.val, b.val);
        return false;
      }
      var i, j := 0, 0;
      while i < |a.val| && j < |b.val|
        invariant i <= |a.val| && j <= |b.val|
        invariant Embeds(a.val, b.val) == Embeds(a.val[i..], b.val[j..])
      {
        if a.val[i] == b.val[j] {
          j := j + 1;
        }
        i := i + 1;
      }
      r := j == |b.val|;
    }

    /** Whether two lists are the same; on canonical lists, whether they are the same set. */
    static method Cmp(a: Communities?, b: Communities?) returns (r: bool)
      ensures a == null || b == null ==> r == (a == b)
      ensures a != null && b != null ==> r == (a.val == b.val)
      ensures a != null && b != null && Increasing(a.val) && Increasing(b.val) ==>
        (r <==> Members(a.val) == Members(b.val))
    {
      if a == null || b == null {
        return a == b;
      }
      if Increasing(a.val) && Increasing(b.val) {
        EqualIsSameSet(a.val, b.val);
      }
      if |a.val| != |b.val| {
        return false;
      }
      for i := 0 to |a.val|
        invariant a.val[..i] == b.val[..i]
      {
        if a.val[i] != b.val[i] {
          return false;
        }
      }
      r := true;
    }
  }
}
