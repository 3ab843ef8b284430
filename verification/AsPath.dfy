/**
 * AS paths as chains of segments (bgp_aspath.c): normalisation and what it keeps,
 * hop counting, prepending, and reconciling a 2-octet path with an AS4_PATH.
 */
module AsPath {
  import opened Sequences
  import opened SortedSets

  datatype SegType = Set | Sequence | ConfedSequence | ConfedSet

  datatype Segment = Segment(kind: SegType, asns: seq<Word>)

  type Path = seq<Segment>

  predicate SetKind(k: SegType) {
    k == Set || k == ConfedSet
  }

  // ---------- what a path says ----------

  /** Hops: one per AS in a sequence, one per set; confederation segments do not count. */
  function Hops(p: Path): nat {
    if p == [] then 0 else
    (match p[0].kind
     case Sequence => |p[0].asns|
     case Set => 1
     case _ => 0) + Hops(p[1..])
  }

  function Confeds(p: Path): nat {
    if p == [] then 0 else
    (match p[0].kind
     case ConfedSequence => |p[0].asns|
     case ConfedSet => 1
     case _ => 0) + Confeds(p[1..])
  }

  function AllAsns(p: Path): set<Word> {
    if p == [] then {} else Members(p[0].asns) + AllAsns(p[1..])
  }

  function AsnCount(p: Path): nat {
    if p == [] then 0 else |p[0].asns| + AsnCount(p[1..])
  }

  predicate ConfedFree(p: Path) {
    forall i :: 0 <= i < |p| ==> p[i].kind == Set || p[i].kind == Sequence
  }

  // ---------- normalisation ----------

  /** Sets are sorted and freed of duplicates; sequences stay. */
  function NormSeg(s: Segment): Segment {
    if SetKind(s.kind) then Segment(s.kind, Canon(s.asns)) else s
  }

  predicate Packable(p: Path) {
    |p| >= 2 && p[0].kind == Sequence && p[1].kind == Sequence
  }

  /** Puts a segment in front of a path, joining it with a leading AS_SEQUENCE when both are sequences. */
  function Join(s: Segment, p: Path): Path {
    if s.kind == Sequence && p != [] && p[0].kind == Sequence
    then [Segment(Sequence, s.asns + p[0].asns)] + p[1..]
    else [s] + p
  }

  function Normalise(p: Path): Path {
    if p == [] then [] else Join(NormSeg(p[0]), Normalise(p[1..]))
  }

  lemma NormaliseCons(s: Segment, p: Path)
    ensures Normalise([s] + p) == Join(NormSeg(s), Normalise(p))
  {
    assert ([s] + p)[1..] == p;
  }

  predicate Normal(p: Path) {
    && (forall i :: 0 <= i < |p| && SetKind(p[i].kind) ==> Increasing(p[i].asns))
    && (forall i :: 0 <= i < |p| - 1 ==> !(p[i].kind == Sequence && p[i + 1].kind == Sequence))
  }

  lemma NormaliseHead(p: Path)
    ensures |Normalise(p)| <= |p|
    ensures p != [] ==> Normalise(p) != [] && Normalise(p)[0].kind == p[0].kind
  {
    if p != [] {
      NormaliseHead(p[1..]);
    }
  }

  lemma JoinNormal(s: Segment, p: Path)
    requires Normal(p) && (SetKind(s.kind) ==> Increasing(s.asns))
    ensures Normal(Join(s, p))
  {
    var j := Join(s, p);
    assert forall i :: 1 <= i < |j| ==> j[i] == if |j| == |p| then p[i] else p[i - 1];
  }

  /** Normalisation lands in normal form, and normal forms are exactly its fixpoints. */
  lemma NormaliseNormal(p: Path)
    ensures Normal(Normalise(p))
  {
    if p != [] {
      NormaliseNormal(p[1..]);
      CanonIsSet(p[0].asns);
      JoinNormal(NormSeg(p[0]), Normalise(p[1..]));
    }
  }

  lemma NormalFixpoint(p: Path)
    requires Normal(p)
    ensures Normalise(p) == p
  {
    if p != [] {
      var t := p[1..];
      assert forall i :: 0 <= i < |t| ==> t[i] == p[i + 1];
      NormalFixpoint(t);
      CanonFixpoint(p[0].asns);
      assert p == [p[0]] + t;
    }
  }

  lemma NormaliseIdempotent(p: Path)
    ensures Normalise(Normalise(p)) == Normalise(p)
  {
    NormaliseNormal(p);
    NormalFixpoint(Normalise(p));
  }

  lemma JoinKeeps(s: Segment, p: Path)
    ensures Hops(Join(s, p)) == Hops([s]) + Hops(p)
    ensures Confeds(Join(s, p)) == Confeds([s]) + Confeds(p)
    ensures AllAsns(Join(s, p)) == Members(s.asns) + AllAsns(p)
  {
    assert [s][1..] == [];
    if s.kind == Sequence && p != [] && p[0].kind == Sequence {
      MembersConcat(s.asns, p[0].asns);
      assert Join(s, p)[1..] == p[1..];
    } else {
      assert ([s] + p)[1..] == p;
    }
  }

  /** Normalisation keeps hop counts and the set of ASNs. */
  lemma NormaliseKeeps(p: Path)
    ensures Hops(Normalise(p)) == Hops(p) && Confeds(Normalise(p)) == Confeds(p)
    ensures AllAsns(Normalise(p)) == AllAsns(p)
  {
    if p != [] {
      NormaliseKeeps(p[1..]);
      CanonIsSet(p[0].asns);
      JoinKeeps(NormSeg(p[0]), Normalise(p[1..]));
      assert [NormSeg(p[0])][1..] == [];
    }
  }

  // ---------- normal forms are canonical ----------

  /** q is p with one AS_SEQUENCE cut in two. */
  predicate Cuts(p: Path, q: Path, pre: Path, a: seq<Word>, b: seq<Word>, post: Path) {
    && p == pre + ([Segment(Sequence, a + b)] + post)
    && q == pre + ([Segment(Sequence, a), Segment(Sequence, b)] + post)
  }

  /** q is p with the members of one set listed differently. */
  predicate Relists(p: Path, q: Path, pre: Path, k: SegType, a: seq<Word>, b: seq<Word>, post: Path) {
    && SetKind(k) && Members(a) == Members(b)
    && p == pre + ([Segment(k, a)] + post)
    && q == pre + ([Segment(k, b)] + post)
  }

  ghost predicate Step(p: Path, q: Path) {
    || (exists pre, a, b, post :: Cuts(p, q, pre, a, b, post))
    || (exists pre, k, a, b, post :: Relists(p, q, pre, k, a, b, post))
  }

  ghost predicate Linked(p: Path, q: Path) {
    Step(p, q) || Step(q, p)
  }

  ghost predicate Chain(c: seq<Path>, p: Path, q: Path) {
    && |c| > 0 && c[0] == p && c[|c| - 1] == q
    && forall i :: 0 <= i < |c| - 1 ==> Linked(c[i], c[i + 1])
  }

  /** The paths differ only by how AS_SEQUENCE runs are cut and how sets are listed. */
  ghost predicate SamePath(p: Path, q: Path) {
    exists c :: Chain(c, p, q)
  }

  lemma JoinCut(a: seq<Word>, b: seq<Word>, p: Path)
    ensures Join(Segment(Sequence, a + b), p) == Join(Segment(Sequence, a), Join(Segment(Sequence, b), p))
  {
    if p != [] && p[0].kind == Sequence {
      assert a + b + p[0].asns == a + (b + p[0].asns);
    } else {
      assert ([Segment(Sequence, b)] + p)[1..] == p;
    }
  }

  lemma NormaliseCong(pre: Path, x: Path, y: Path)
    requires Normalise(x) == Normalise(y)
    ensures Normalise(pre + x) == Normalise(pre + y)
  {
    if pre == [] {
      assert pre + x == x && pre + y == y;
    } else {
      assert (pre + x)[1..] == pre[1..] + x && (pre + y)[1..] == pre[1..] + y;
      NormaliseCong(pre[1..], x, y);
    }
  }

  lemma StepNormalises(p: Path, q: Path)
    requires Step(p, q)
    ensures Normalise(p) == Normalise(q)
  {
    if pre, a, b, post :| Cuts(p, q, pre, a, b, post) {
      var x, y := [Segment(Sequence, a + b)] + post, [Segment(Sequence, a), Segment(Sequence, b)] + post;
      assert x[1..] == post && y[1..] == [Segment(Sequence, b)] + post && y[1..][1..] == post;
      JoinCut(a, b, Normalise(post));
      NormaliseCong(pre, x, y);
    } else {
      var pre, k, a, b, post :| Relists(p, q, pre, k, a, b, post);
      var x, y := [Segment(k, a)] + post, [Segment(k, b)] + post;
      assert x[1..] == post && y[1..] == post;
      CanonUnique(a, b);
      NormaliseCong(pre, x, y);
    }
  }

  lemma ChainNormalises(c: seq<Path>, p: Path, q: Path)
    requires Chain(c, p, q)
    ensures Normalise(p) == Normalise(q)
  {
    if |c| > 1 {
      assert Linked(c[0], c[1]);
      if Step(c[0], c[1]) { StepNormalises(c[0], c[1]); } else { StepNormalises(c[1], c[0]); }
      ChainNormalises(c[1..], c[1], q);
    }
  }

  lemma SameTransitive(p: Path, q: Path, r: Path)
    requires SamePath(p, q) && SamePath(q, r)
    ensures SamePath(p, r)
  {
    var c :| Chain(c, p, q);
    var d :| Chain(d, q, r);
    var e := c + d[1..];
    assert forall i :: |c| <= i < |e| ==> e[i] == d[i - |c| + 1];
    forall i | 0 <= i < |e| - 1 ensures Linked(e[i], e[i + 1]) {
      if i < |c| - 1 {
        assert Linked(c[i], c[i + 1]);
      } else {
        assert Linked(d[i - |c| + 1], d[i - |c| + 2]);
      }
    }
    assert Chain(e, p, r);
  }

  lemma SameSymmetric(p: Path, q: Path)
    requires SamePath(p, q)
    ensures SamePath(q, p)
  {
    var c :| Chain(c, p, q);
    var d := seq(|c|, i requires 0 <= i < |c| => c[|c| - 1 - i]);
    forall i | 0 <= i < |d| - 1 ensures Linked(d[i], d[i + 1]) {
      assert Linked(c[|c| - 2 - i], c[|c| - 1 - i]);
    }
    assert Chain(d, q, p);
  }

  lemma StepIsSame(p: Path, q: Path)
    requires Linked(p, q)
    ensures SamePath(p, q)
  {
    assert Chain([p, q], p, q);
  }

  lemma StepCons(s: Segment, p: Path, q: Path)
    requires Step(p, q)
    ensures Step([s] + p, [s] + q)
  {
    if pre, a, b, post :| Cuts(p, q, pre, a, b, post) {
      assert Cuts([s] + p, [s] + q, [s] + pre, a, b, post);
    } else {
      var pre, k, a, b, post :| Relists(p, q, pre, k, a, b, post);
      assert Relists([s] + p, [s] + q, [s] + pre, k, a, b, post);
    }
  }

  lemma SameCons(s: Segment, p: Path, q: Path)
    requires SamePath(p, q)
    ensures SamePath([s] + p, [s] + q)
  {
    var c :| Chain(c, p, q);
    var d := seq(|c|, i requires 0 <= i < |c| => [s] + c[i]);
    forall i | 0 <= i < |d| - 1 ensures Linked(d[i], d[i + 1]) {
      assert Linked(c[i], c[i + 1]);
      if Step(c[i], c[i + 1]) { StepCons(s, c[i], c[i + 1]); } else { StepCons(s, c[i + 1], c[i]); }
    }
    assert Chain(d, [s] + p, [s] + q);
  }

  /** Every path is the same path as its normal form. */
  lemma SameAsNormal(p: Path)
    ensures SamePath(p, Normalise(p))
  {
    if p == [] {
      assert Chain([p], p, p);
    } else {
      var s, n := p[0], Normalise(p[1..]);
      SameAsNormal(p[1..]);
      SameCons(s, p[1..], n);
      assert p == [s] + p[1..];
      if SetKind(s.kind) {
        CanonIsSet(s.asns);
        assert Relists([s] + n, [NormSeg(s)] + n, [], s.kind, s.asns, Canon(s.asns), n);
        StepIsSame([s] + n, [NormSeg(s)] + n);
        SameTransitive(p, [s] + n, [NormSeg(s)] + n);
      } else if s.kind == Sequence && n != [] && n[0].kind == Sequence {
        assert [s] + n == [Segment(Sequence, s.asns), Segment(Sequence, n[0].asns)] + n[1..];
        assert Cuts(Join(s, n), [s] + n, [], s.asns, n[0].asns, n[1..]);
        StepIsSame([s] + n, Join(s, n));
        SameTransitive(p, [s] + n, Join(s, n));
      }
    }
  }

  /** Two paths normalise alike exactly when they are the same path up to cutting and listing. */
  lemma NormaliseCanonical(p: Path, q: Path)
    ensures Normalise(p) == Normalise(q) <==> SamePath(p, q)
  {
    if SamePath(p, q) {
      var c :| Chain(c, p, q);
      ChainNormalises(c, p, q);
    }
    if Normalise(p) == Normalise(q) {
      SameAsNormal(p);
      SameAsNormal(q);
      SameSymmetric(q, Normalise(q));
      SameTransitive(p, Normalise(p), q);
    }
  }

  // ---------- prepending ----------

  /** Adds one AS on the left; a path whose first segment is empty counts as empty and is replaced. */
  function AddOne(p: Path, asn: Word, kind: SegType): Path {
    if p == [] || p[0].asns == [] then [Segment(kind, [asn])]
    else if p[0].kind == kind then [Segment(kind, [asn] + p[0].asns)] + p[1..]
    else [Segment(kind, [asn])] + p
  }

  /** The AS numbers of a path in order, each with the kind of segment it stands in. */
  function Entries(p: Path): seq<(SegType, Word)> {
    if p == [] then [] else EntriesOf(p[0]) + Entries(p[1..])
  }

  function EntriesOf(s: Segment): seq<(SegType, Word)> {
    seq(|s.asns|, i requires 0 <= i < |s.asns| => (s.kind, s.asns[i]))
  }

  /** One entry more, on the left, in a segment of its own unless it joins one of its kind. */
  lemma AddOneLeftmost(p: Path, asn: Word, kind: SegType)
    requires p == [] || p[0].asns != []
    ensures Entries(AddOne(p, asn, kind)) == [(kind, asn)] + Entries(p)
    ensures |AddOne(p, asn, kind)| == |p| + if p != [] && p[0].kind == kind then 0 else 1
  {
    var r := AddOne(p, asn, kind);
    assert Entries(r) == EntriesOf(r[0]) + Entries(r[1..]);
    if p != [] && p[0].kind == kind {
      assert r[1..] == p[1..];
      assert EntriesOf(r[0]) == [(kind, asn)] + EntriesOf(p[0]);
      AppendAssoc([(kind, asn)], EntriesOf(p[0]), Entries(p[1..]));
    } else {
      assert r[1..] == p && EntriesOf(r[0]) == [(kind, asn)];
    }
  }

  /** Each router on the way adds its own AS_SEQUENCE number; the last one to do so ends up leftmost. */
  function Prepend(ks: seq<Word>, p: Path): Path {
    if ks == [] then p else AddOne(Prepend(ks[1..], p), ks[0], Sequence)
  }

  /** The paths that prepending treats as what they are. */
  predicate Prependable(p: Path) {
    p == [] || p[0].asns != [] || p == [Segment(Sequence, [])]
  }

  lemma AddToJoin(k: Word, ks: seq<Word>, p: Path)
    requires ks != []
    ensures AddOne(Join(Segment(Sequence, ks), p), k, Sequence) == Join(Segment(Sequence, [k] + ks), p)
  {
    var j := Join(Segment(Sequence, ks), p);
    if p != [] && p[0].kind == Sequence {
      assert j[0].asns == ks + p[0].asns && j[1..] == p[1..];
      assert [k] + (ks + p[0].asns) == [k] + ks + p[0].asns;
    } else {
      assert j[1..] == p;
    }
  }

  lemma {:induction false} PrependIsJoin(ks: seq<Word>, p: Path)
    requires ks != []
    ensures Prepend(ks, p) ==
      if p == [] || p[0].asns == [] then [Segment(Sequence, ks)] else Join(Segment(Sequence, ks), p)
  {
    assert ks == [ks[0]] + ks[1..];
    if |ks| == 1 {
      assert Prepend(ks[1..], p) == p;
      assert ks == [ks[0]];
    } else {
      PrependIsJoin(ks[1..], p);
      if p == [] || p[0].asns == [] {
        AddToJoin(ks[0], ks[1..], []);
      } else {
        AddToJoin(ks[0], ks[1..], p);
      }
    }
  }

  // ---------- crossing 2-octet speakers ----------

  const AS_MAX16: Word := 65535
  const AS_TRANS: Word := 23456

  /** What is left of an AS number on a 2-octet session. */
  function Trans(x: Word): Word {
    if x <= AS_MAX16 then x else AS_TRANS
  }

  function TransAsns(a: seq<Word>): (r: seq<Word>)
    ensures |r| == |a| && forall i :: 0 <= i < |a| ==> r[i] == Trans(a[i])
  {
    seq(|a|, i requires 0 <= i < |a| => Trans(a[i]))
  }

  function TransPath(p: Path): (r: Path)
    ensures |r| == |p| && forall i :: 0 <= i < |p| ==> r[i] == Segment(p[i].kind, TransAsns(p[i].asns))
  {
    seq(|p|, i requires 0 <= i < |p| => Segment(p[i].kind, TransAsns(p[i].asns)))
  }

  lemma TransKeepsHops(p: Path)
    ensures Hops(TransPath(p)) == Hops(p) && Confeds(TransPath(p)) == Confeds(p)
  {
    if p != [] {
      TransKeepsHops(p[1..]);
      assert TransPath(p)[1..] == TransPath(p[1..]);
    }
  }

  // ---------- reconciling AS_PATH with AS4_PATH ----------

  /** The leading segments of p worth the given number of hops; a confederation sequence is never split. */
  function TakeHops(p: Path, hops: int): Path {
    if p == [] || hops <= 0 then [] else
    var s := p[0];
    if SetKind(s.kind) then [s] + TakeHops(p[1..], hops - 1)
    else if s.kind == ConfedSequence then
      [s] + TakeHops(p[1..], (if hops < |s.asns| then |s.asns| else hops) - |s.asns|)
    else if hops < |s.asns| then [Segment(s.kind, s.asns[..hops])]
    else [s] + TakeHops(p[1..], hops - |s.asns|)
  }

  /** How many leading hops of the AS_PATH go before the AS4_PATH. */
  function SurplusHops(p: Path, q: Path): int {
    var hops := Hops(p) + Confeds(p) - Hops(q);
    if hops < 0 then Hops(p) else hops
  }

  function Reconcile(p: Path, q: Path): Path {
    var hops := SurplusHops(p, q);
    if hops == 0 then q else Normalise(TakeHops(p, hops) + q)
  }

  lemma HopsConcat(p: Path, q: Path)
    ensures Hops(p + q) == Hops(p) + Hops(q) && AllAsns(p + q) == AllAsns(p) + AllAsns(q)
  {
    if p == [] {
      assert p + q == q;
    } else {
      assert (p + q)[1..] == p[1..] + q;
      HopsConcat(p[1..], q);
    }
  }

  lemma ConfedFreeTail(p: Path)
    requires ConfedFree(p)
    ensures Confeds(p) == 0 && (p != [] ==> ConfedFree(p[1..]))
  {
    if p != [] {
      assert forall i :: 0 <= i < |p[1..]| ==> p[1..][i] == p[i + 1];
      ConfedFreeTail(p[1..]);
    }
  }

  lemma NoHopsNoAsns(p: Path)
    requires ConfedFree(p) && Hops(p) == 0
    ensures AllAsns(p) == {}
  {
    if p != [] {
      ConfedFreeTail(p);
      NoHopsNoAsns(p[1..]);
    }
  }

  lemma {:induction false} TakeHopsCount(p: Path, hops: int)
    requires ConfedFree(p) && 0 <= hops <= Hops(p)
    ensures Hops(TakeHops(p, hops)) == hops
    ensures hops == Hops(p) ==> AllAsns(TakeHops(p, hops)) == AllAsns(p)
  {
    if hops == 0 {
      if Hops(p) == 0 { NoHopsNoAsns(p); }
    } else {
      ConfedFreeTail(p);
      var s := p[0];
      if s.kind == Sequence && hops < |s.asns| {
        assert TakeHops(p, hops)[1..] == [];
      } else {
        var rest := hops - if s.kind == Set then 1 else |s.asns|;
        TakeHopsCount(p[1..], rest);
        assert ([s] + TakeHops(p[1..], rest))[1..] == TakeHops(p[1..], rest);
      }
    }
  }

  /** Hop counts are conserved: the AS4_PATH stands in for exactly as many hops as it has. */
  lemma ReconcileHops(p: Path, q: Path)
    requires ConfedFree(p) && Hops(p) >= Hops(q)
    ensures Hops(Reconcile(p, q)) == Hops(p)
  {
    ConfedFreeTail(p);
    var hops := SurplusHops(p, q);
    if hops != 0 {
      TakeHopsCount(p, hops);
      HopsConcat(TakeHops(p, hops), q);
      NormaliseKeeps(TakeHops(p, hops) + q);
    }
  }

  /** No AS number of the AS4_PATH is lost, whatever the AS_PATH. */
  lemma ReconcileKeepsAs4(p: Path, q: Path)
    ensures AllAsns(q) <= AllAsns(Reconcile(p, q))
  {
    var hops := SurplusHops(p, q);
    HopsConcat(TakeHops(p, hops), q);
    NormaliseKeeps(TakeHops(p, hops) + q);
  }

  /** An AS_PATH too short for its AS4_PATH is kept whole in front of it, so loops stay visible. */
  lemma ReconcileShort(p: Path, q: Path)
    requires ConfedFree(p) && Hops(p) < Hops(q)
    ensures Hops(p) > 0 ==>
      AllAsns(Reconcile(p, q)) == AllAsns(p) + AllAsns(q) && Hops(Reconcile(p, q)) == Hops(p) + Hops(q)
  {
    ConfedFreeTail(p);
    TakeHopsCount(p, Hops(p));
    HopsConcat(TakeHops(p, Hops(p)), q);
    NormaliseKeeps(TakeHops(p, Hops(p)) + q);
  }

  // ---------- reconciling behind a confederation ----------

  predicate AllConfed(p: Path) {
    forall i :: 0 <= i < |p| ==> p[i].kind == ConfedSequence || p[i].kind == ConfedSet
  }

  /** Hops of either kind: what the counter is run down by. */
  function Worth(p: Path): nat {
    Hops(p) + Confeds(p)
  }

  lemma ConfedsConcat(p: Path, q: Path)
    ensures Confeds(p + q) == Confeds(p) + Confeds(q)
  {
    if p == [] {
      assert p + q == q;
    } else {
      assert (p + q)[1..] == p[1..] + q;
      ConfedsConcat(p[1..], q);
    }
  }

  lemma WorthCons(s: Segment, p: Path)
    ensures Worth([s] + p) == Worth([s]) + Worth(p)
    ensures Worth([s]) == if SetKind(s.kind) then 1 else |s.asns|
  {
    HopsConcat([s], p);
    ConfedsConcat([s], p);
    assert [s][1..] == [];
  }

  lemma AllConfedTail(p: Path)
    requires AllConfed(p)
    ensures Hops(p) == 0 && (p != [] ==> AllConfed(p[1..]))
  {
    if p != [] {
      assert forall i :: 0 <= i < |p[1..]| ==> p[1..][i] == p[i + 1];
      AllConfedTail(p[1..]);
    }
  }

  /** All of s but for the end of an AS_SEQUENCE. */
  predicate Lead(t: Segment, s: Segment) {
    t.kind == s.kind && t.asns <= s.asns && (s.kind != Sequence ==> t == s)
  }

  /**
   * A lead of the path worth the hops asked for, and no shorter one is. Only an AS_SEQUENCE is cut, and then exactly;
   * it is worth more than was asked for only when it ends in a confederation sequence, which is kept whole.
   */
  predicate ShortestLead(t: Path, p: Path, hops: nat) {
    && 0 < |t| <= |p| && t[..|t| - 1] == p[..|t| - 1] && Lead(t[|t| - 1], p[|t| - 1])
    && Worth(t[..|t| - 1]) < hops <= Worth(t)
    && (Worth(t) > hops ==> t[|t| - 1].kind == ConfedSequence)
    && (t[|t| - 1] != p[|t| - 1] ==> Worth(t) == hops)
  }

  lemma ShortestCons(s: Segment, t: Path, p: Path, hops: nat)
    requires ShortestLead(t, p, hops)
    ensures ShortestLead([s] + t, [s] + p, hops + Worth([s]))
  {
    var u, n := [s] + t, |t|;
    assert u[..n] == [s] + t[..n - 1] && ([s] + p)[..n] == [s] + p[..n - 1];
    assert u[n] == t[n - 1] && ([s] + p)[n] == p[n - 1];
    WorthCons(s, t);
    WorthCons(s, t[..n - 1]);
  }

  lemma TakeFirst(s: Segment, rest: Path, hops: nat)
    requires hops > 0
    ensures hops > Worth([s]) ==> TakeHops([s] + rest, hops) == [s] + TakeHops(rest, hops - Worth([s]))
    ensures hops <= Worth([s]) ==> ShortestLead(TakeHops([s] + rest, hops), [s] + rest, hops)
  {
    var p := [s] + rest;
    assert p[0] == s && p[1..] == rest;
    WorthCons(s, []);
    if hops <= Worth([s]) {
      var x := if s.kind == Sequence then Segment(s.kind, s.asns[..hops]) else s;
      assert s.asns[..|s.asns|] == s.asns;
      assert TakeHops(p, hops) == [x];
      WorthCons(x, []);
      assert [x][..0] == [] == p[..0];
    }
  }

  /** The segments taken are the shortest lead of the path worth the hops asked for. */
  lemma {:induction false} TakeHopsLead(p: Path, hops: nat)
    requires 0 < hops <= Worth(p)
    ensures ShortestLead(TakeHops(p, hops), p, hops)
  {
    var s, rest := p[0], p[1..];
    assert p == [s] + rest;
    WorthCons(s, rest);
    TakeFirst(s, rest, hops);
    if hops > Worth([s]) {
      TakeHopsLead(rest, hops - Worth([s]));
      ShortestCons(s, TakeHops(rest, hops - Worth([s])), rest, hops - Worth([s]));
    }
  }

  /**
   * Whatever the paths: the AS4_PATH takes the place of as many hops as it has at the end of the AS_PATH, confederation
   * hops included. When it has more than there are, it is put behind a lead of as many hops as the AS_PATH has outside
   * confederations.
   */
  lemma ReconcileMeans(p: Path, q: Path) returns (t: Path)
    ensures Worth(p) > Hops(q) ==> ShortestLead(t, p, Worth(p) - Hops(q)) && Reconcile(p, q) == Normalise(t + q)
    ensures Worth(p) < Hops(q) && Hops(p) > 0 ==> ShortestLead(t, p, Hops(p)) && Reconcile(p, q) == Normalise(t + q)
    ensures Worth(p) == Hops(q) || (Worth(p) < Hops(q) && Hops(p) == 0) ==> Reconcile(p, q) == q
  {
    t := TakeHops(p, SurplusHops(p, q));
    if Worth(p) > Hops(q) {
      TakeHopsLead(p, Worth(p) - Hops(q));
    } else if Worth(p) < Hops(q) && Hops(p) > 0 {
      TakeHopsLead(p, Hops(p));
    }
  }

  /** A confederation is taken whole before anything behind it, when more hops than it is worth are asked for. */
  lemma {:induction false} TakeConfeds(c: Path, r: Path, hops: nat)
    requires AllConfed(c) && hops > Confeds(c)
    ensures TakeHops(c + r, hops) == c + TakeHops(r, hops - Confeds(c))
  {
    if c == [] {
      assert c + r == r;
    } else {
      var s, rest := c[0], c[1..];
      AllConfedTail(c);
      assert c == [s] + rest && c + r == [s] + (rest + r);
      WorthCons(s, rest);
      AllConfedTail(rest);
      TakeFirst(s, rest + r, hops);
      TakeConfeds(rest, r, hops - Worth([s]));
      AppendAssoc([s], rest, TakeHops(r, hops - Confeds(c)));
    }
  }

  /** The last segment is worth something. */
  predicate Closed(c: Path) {
    c == [] || c[|c| - 1].kind == ConfedSet || c[|c| - 1].asns != []
  }

  /** When exactly the confederation's hops are asked for, all of it is taken unless it ends in an empty sequence. */
  lemma {:induction false} TakeExactly(c: Path, r: Path)
    requires AllConfed(c)
    ensures Closed(c) ==> TakeHops(c + r, Confeds(c)) == c
    ensures !Closed(c) ==> TakeHops(c + r, Confeds(c)) <= c && |TakeHops(c + r, Confeds(c))| < |c|
  {
    if c == [] {
      assert TakeHops(c + r, 0) == [];
    } else {
      var s, rest := c[0], c[1..];
      assert c == [s] + rest && c + r == [s] + (rest + r);
      AllConfedTail(c);
      AllConfedTail(rest);
      WorthCons(s, rest);
      TakeExactly(rest, r);
      if Confeds(c) == 0 {
        OnlyEmpty(c);
      } else {
        TakeConfedFirst(s, rest + r, Confeds(c), Confeds(rest));
        if rest == [] {
          assert TakeHops(rest + r, 0) == [];
        } else {
          ClosedTail(c);
        }
      }
    }
  }

  lemma TakeConfedFirst(s: Segment, rest: Path, hops: nat, left: nat)
    requires (s.kind == ConfedSequence || s.kind == ConfedSet) && hops > 0 && hops == Worth([s]) + left
    ensures TakeHops([s] + rest, hops) == [s] + TakeHops(rest, left)
  {
    WorthCons(s, []);
    var p := [s] + rest;
    assert p[0] == s && p[1..] == rest;
  }

  lemma ClosedTail(c: Path)
    requires |c| > 1
    ensures Closed(c) <==> Closed(c[1..])
  {
    assert c[|c| - 1] == c[1..][|c| - 2];
  }

  lemma OnlyEmpty(c: Path)
    requires AllConfed(c) && c != [] && Confeds(c) == 0
    ensures !Closed(c)
  {
    if |c| > 1 {
      AllConfedTail(c);
      OnlyEmpty(c[1..]);
    }
  }

  /** Normalising the end first makes no difference. */
  lemma {:induction false} NormaliseEnd(a: Path, b: Path)
    ensures Normalise(a + Normalise(b)) == Normalise(a + b)
  {
    if a == [] {
      assert a + Normalise(b) == Normalise(b) && a + b == b;
      NormaliseIdempotent(b);
    } else {
      assert (a + Normalise(b))[1..] == a[1..] + Normalise(b) && (a + b)[1..] == a[1..] + b;
      NormaliseEnd(a[1..], b);
    }
  }

  lemma {:induction false} NormaliseConfeds(c: Path, x: Path)
    requires AllConfed(c)
    ensures |Normalise(c + x)| == |c| + |Normalise(x)|
  {
    if c == [] {
      assert c + x == x;
    } else {
      AllConfedTail(c);
      assert (c + x)[1..] == c[1..] + x;
      NormaliseConfeds(c[1..], x);
    }
  }

  /**
   * Behind a leading confederation the rest is reconciled as it would be alone, and the confederation stays in front of
   * it whole: always when the AS_PATH has hops to spare, and otherwise exactly when the confederation does not end in
   * an empty sequence, which would be lost.
   */
  lemma ReconcileBehindConfeds(c: Path, r: Path, q: Path)
    requires AllConfed(c) && ConfedFree(r) && Normal(q) && Hops(r) >= Hops(q)
    ensures Reconcile(c + r, q) == Normalise(c + Reconcile(r, q)) <==> Hops(r) > Hops(q) || Closed(c)
  {
    var spare := Hops(r) - Hops(q);
    SurplusBehind(c, r, q);
    if spare > 0 {
      ReconcileSpare(c, r, q, spare);
    } else {
      assert Reconcile(r, q) == q;
      ReconcileExactly(c, r, q);
    }
  }

  lemma SurplusBehind(c: Path, r: Path, q: Path)
    requires AllConfed(c) && ConfedFree(r) && Hops(r) >= Hops(q)
    ensures SurplusHops(r, q) == Hops(r) - Hops(q) && SurplusHops(c + r, q) == Confeds(c) + Hops(r) - Hops(q)
  {
    assert Hops(c + r) == Hops(r) by {
      AllConfedTail(c);
      HopsConcat(c, r);
    }
    assert Confeds(c + r) == Confeds(c) && Confeds(r) == 0 by {
      ConfedFreeTail(r);
      ConfedsConcat(c, r);
    }
  }

  lemma ReconcileWith(p: Path, q: Path, hops: nat)
    requires hops > 0 && SurplusHops(p, q) == hops
    ensures Reconcile(p, q) == Normalise(TakeHops(p, hops) + q)
  {
  }

  lemma ReconcileSpare(c: Path, r: Path, q: Path, spare: nat)
    requires AllConfed(c) && spare > 0 && SurplusHops(r, q) == spare && SurplusHops(c + r, q) == Confeds(c) + spare
    ensures Reconcile(c + r, q) == Normalise(c + Reconcile(r, q))
  {
    ReconcileWith(r, q, spare);
    ReconcileWith(c + r, q, Confeds(c) + spare);
    TakeConfeds(c, r, Confeds(c) + spare);
    NormaliseBehind(c, TakeHops(r, spare), q);
  }

  lemma NormaliseBehind(c: Path, t: Path, q: Path)
    ensures Normalise(c + t + q) == Normalise(c + Normalise(t + q))
  {
    AppendAssoc(c, t, q);
    NormaliseEnd(c, t + q);
  }

  lemma ReconcileExactly(c: Path, r: Path, q: Path)
    requires AllConfed(c) && Normal(q) && SurplusHops(c + r, q) == Confeds(c)
    ensures Reconcile(c + r, q) == Normalise(c + q) <==> Closed(c)
  {
    NormalFixpoint(q);
    NormaliseConfeds(c, q);
    TakeExactly(c, r);
    var t := TakeHops(c + r, Confeds(c));
    if Confeds(c) == 0 {
      if c == [] {
        assert c + q == q;
      } else {
        OnlyEmpty(c);
      }
    } else if !Closed(c) {
      assert AllConfed(t);
      NormaliseConfeds(t, q);
    }
  }

  /** So no hop is lost or counted twice, and every AS of the confederation can still be found in the path. */
  lemma ReconcileKeepsConfeds(c: Path, r: Path, q: Path)
    requires AllConfed(c) && ConfedFree(r) && Normal(q) && ConfedFree(q) && Hops(r) >= Hops(q)
    requires Hops(r) > Hops(q) || Closed(c)
    ensures Hops(Reconcile(c + r, q)) == Hops(c + r) && Confeds(Reconcile(c + r, q)) == Confeds(c + r)
    ensures AllAsns(c) + AllAsns(q) <= AllAsns(Reconcile(c + r, q))
  {
    var e := Reconcile(r, q);
    ReconcileBehindConfeds(c, r, q);
    ReconcileHops(r, q);
    ReconcileKeepsAs4(r, q);
    ReconcileConfedFree(r, q);
    ConfedFreeTail(r);
    ConfedFreeTail(e);
    HopsConcat(c, e);
    HopsConcat(c, r);
    ConfedsConcat(c, e);
    ConfedsConcat(c, r);
    NormaliseKeeps(c + e);
  }

  lemma ReconcileConfedFree(r: Path, q: Path)
    requires ConfedFree(r) && ConfedFree(q)
    ensures ConfedFree(Reconcile(r, q))
  {
    var t := TakeHops(r, SurplusHops(r, q));
    TakeHopsConfedFree(r, SurplusHops(r, q));
    NormaliseConfedFree(t + q);
  }

  lemma TakeHopsConfedFree(r: Path, hops: int)
    requires ConfedFree(r)
    ensures ConfedFree(TakeHops(r, hops))
  {
    if r != [] && hops > 0 {
      ConfedFreeTail(r);
      TakeHopsConfedFree(r[1..], hops - if r[0].kind == Set then 1 else |r[0].asns|);
    }
  }

  /** The confederation stays in front when the path behind it needs reconciling. */
  lemma ConfedsStay()
    ensures var c, r, q := [Segment(ConfedSequence, [65001, 65002])], [Segment(Sequence, [1, 23456])],
                           [Segment(Sequence, [1, 70000])];
      Reconcile(c + r, q) == c + q
  {
    var c, r, q := [Segment(ConfedSequence, [65001, 65002])], [Segment(Sequence, [1, 23456])],
                   [Segment(Sequence, [1, 70000])];
    assert r[1..] == [] && q[1..] == [] && c[1..] == [];
    ReconcileBehindConfeds(c, r, q);
    assert Reconcile(r, q) == q;
    assert Normal(c + q);
    NormalFixpoint(c + q);
  }

  // ---------- tunnelling through 2-octet speakers ----------

  /** The path as it comes out of a 2-octet session: substituted and re-normalised. */
  function Squeezed(p: Path): Path {
    Normalise(TransPath(p))
  }

  lemma SqueezedHead(p: Path)
    requires Normal(p) && ConfedFree(p)
    ensures Hops(Squeezed(p)) == Hops(p) && ConfedFree(Squeezed(p))
    ensures p == [] <==> Squeezed(p) == []
    ensures p != [] ==> Squeezed(p)[0].kind == p[0].kind && (Squeezed(p)[0].asns == [] <==> p[0].asns == [])
    ensures p == [Segment(Sequence, [])] ==> Squeezed(p) == p
  {
    TransKeepsHops(p);
    NormaliseKeeps(TransPath(p));
    NormaliseHead(TransPath(p));
    NormaliseConfedFree(TransPath(p));
    if p != [] {
      var t := TransPath(p)[1..];
      NormaliseHead(t);
      CanonIsSet(TransAsns(p[0].asns));
      NoMembers(TransAsns(p[0].asns));
      NoMembers(Canon(TransAsns(p[0].asns)));
    }
  }

  lemma NormaliseConfedFree(p: Path)
    requires ConfedFree(p)
    ensures ConfedFree(Normalise(p))
  {
    if p != [] {
      ConfedFreeTail(p);
      NormaliseConfedFree(p[1..]);
    }
  }

  lemma JoinConfedFree(s: Segment, t: Path)
    requires s.kind == Sequence && ConfedFree(t)
    ensures ConfedFree(Join(s, t))
  {
  }

  /** A path that starts with the prepended ASNs gives them all up, and nothing else, for k hops. */
  lemma TakePrepended(ks: seq<Word>, t: Path)
    requires ks != [] && (t == [] || t[0].asns != [])
    ensures TakeHops(Join(Segment(Sequence, ks), t), |ks|) == [Segment(Sequence, ks)]
  {
    var p := Join(Segment(Sequence, ks), t);
    if t != [] && t[0].kind == Sequence {
      assert p[0].asns[..|ks|] == ks && |p[0].asns| > |ks|;
    } else {
      assert p[0].asns == ks && p[1..] == t && TakeHops(t, 0) == [];
    }
  }

  lemma TunnelFullLead(p: Path, ks: seq<Word>, t: Path)
    requires Normal(p) && ks != [] && ConfedFree(t) && Hops(t) == Hops(p)
    requires (p == [] || p[0].asns != []) && (t == [] || t[0].asns != [])
    ensures Reconcile(Join(Segment(Sequence, ks), t), p) == Join(Segment(Sequence, ks), p)
  {
    var s := Segment(Sequence, ks);
    JoinKeeps(s, t);
    JoinConfedFree(s, t);
    ConfedFreeTail(Join(s, t));
    assert [s][1..] == [];
    assert SurplusHops(Join(s, t), p) == |ks|;
    TakePrepended(ks, t);
    NormalFixpoint(p);
    assert ([s] + p)[1..] == p;
  }

  /** Segments of kind AS_SET; neither joining nor normalising changes their number. */
  function Sets(p: Path): nat {
    if p == [] then 0 else (if p[0].kind == Set then 1 else 0) + Sets(p[1..])
  }

  lemma SetsConcat(p: Path, q: Path)
    ensures Sets(p + q) == Sets(p) + Sets(q)
  {
    if p == [] {
      assert p + q == q;
    } else {
      SetsConcat(p[1..], q);
      assert (p + q)[1..] == p[1..] + q;
    }
  }

  lemma SetsJoin(s: Segment, n: Path)
    ensures Sets(Join(s, n)) == Sets(n) + if s.kind == Set then 1 else 0
  {
    if s.kind == Sequence && n != [] && n[0].kind == Sequence {
      assert Join(s, n)[1..] == n[1..];
    } else {
      assert Join(s, n)[1..] == n;
    }
  }

  lemma SetsNormalise(p: Path)
    ensures Sets(Normalise(p)) == Sets(p)
  {
    if p != [] {
      SetsNormalise(p[1..]);
      SetsJoin(NormSeg(p[0]), Normalise(p[1..]));
    }
  }

  lemma TunnelEmptyLead(p: Path, ks: seq<Word>)
    requires Normal(p) && ConfedFree(p) && ks != [] && p != [] && p[0].asns == []
    ensures Reconcile([Segment(Sequence, ks)], p) == [Segment(Sequence, ks)] <==> p == [Segment(Sequence, [])]
  {
    var whole := [Segment(Sequence, ks)];
    assert whole[1..] == [];
    assert Hops(whole) == |ks| && Confeds(whole) == 0 && Sets(whole) == 0;
    if p == [Segment(Sequence, [])] {
      assert p[1..] == [] && Hops(p) == 0;
      assert TakeHops(whole, |ks|) == whole;
      assert (whole + p)[1..] == p && ks + [] == ks;
      assert Normalise(p) == p;
    } else {
      assert Sets(p) > 0 by {
        if p[0].kind != Set { assert p[1..][0] == p[1]; }
      }
      var hops := SurplusHops(whole, p);
      SetsNormalise(TakeHops(whole, hops) + p);
      SetsConcat(TakeHops(whole, hops), p);
    }
  }

  /**
   * Crossing any number of 2-octet speakers, each adding its AS to the substituted
   * path, and reconciling with the AS4_PATH gives the original path with those ASes
   * added, exactly when the path does not begin with an empty segment that prepending
   * would have thrown away.
   */
  lemma TunnelLossless(p: Path, ks: seq<Word>)
    requires Normal(p) && ConfedFree(p) && ks != []
    ensures Reconcile(Prepend(ks, Squeezed(p)), p) == Prepend(ks, p) <==> Prependable(p)
  {
    SqueezedHead(p);
    PrependIsJoin(ks, Squeezed(p));
    PrependIsJoin(ks, p);
    if p == [] || p[0].asns != [] {
      TunnelFullLead(p, ks, Squeezed(p));
      assert Join(Segment(Sequence, ks), []) == [Segment(Sequence, ks)];
    } else {
      TunnelEmptyLead(p, ks);
    }
  }

  /** A path that is one empty set does not come through: prepending drops it on one side and not on the other. */
  lemma TunnelLosesEmptyLead(k: Word)
    ensures var p := [Segment(Set, [])];
      Normal(p) && ConfedFree(p) && Reconcile(Prepend([k], Squeezed(p)), p) != Prepend([k], p)
  {
    var p := [Segment(Set, [])];
    assert Normal(p) && ConfedFree(p) && !Prependable(p);
    TunnelLossless(p, [k]);
  }

  // ---------- the routines, on chains that are rewritten in place ----------

  method CountHops(p: Path) returns (count: nat)
    ensures count == Hops(p)
  {
    count := 0;
    for i := 0 to |p|
      invariant count + Hops(p[i..]) == Hops(p)
    {
      assert p[i..][1..] == p[i + 1..];
      match p[i].kind
      case Sequence => count := count + |p[i].asns|;
      case Set => count := count + 1;
      case _ =>
    }
    assert p[|p|..] == [];
  }

  method CountConfeds(p: Path) returns (count: nat)
    ensures count == Confeds(p)
  {
    count := 0;
    for i := 0 to |p|
      invariant count + Confeds(p[i..]) == Confeds(p)
    {
      assert p[i..][1..] == p[i + 1..];
      match p[i].kind
      case ConfedSequence => count := count + |p[i].asns|;
      case ConfedSet => count := count + 1;
      case _ =>
    }
    assert p[|p|..] == [];
  }

  class AsPathChain {
    var segments: Path

    constructor (p: Path)
      ensures segments == p
    {
      segments := p;
    }

    /** Merges the runs of sequences that start at the pinned segment. */
    method Pack(pin: nat)
      requires pin < |segments|
      modifies this
      ensures pin < |segments| <= |old(segments)| && segments[..pin] == old(segments)[..pin]
      ensures segments[pin].kind == old(segments)[pin].kind
      ensures segments[pin].kind != Sequence ==> segments == old(segments)
      ensures Normalise(segments[pin..]) == Normalise(old(segments)[pin..]) && !Packable(segments[pin..])
    {
      while pin + 1 < |segments| && segments[pin].kind == Sequence && segments[pin + 1].kind == Sequence
        invariant pin < |segments| <= |old(segments)| && segments[..pin] == old(segments)[..pin]
        invariant segments[pin].kind == old(segments)[pin].kind
        invariant segments[pin].kind != Sequence ==> segments == old(segments)
        invariant Normalise(segments[pin..]) == Normalise(old(segments)[pin..])
        decreases |segments|
      {
        ghost var was := segments[pin..];
        var a, b, post := segments[pin].asns, segments[pin + 1].asns, segments[pin + 2..];
        segments := segments[..pin] + ([Segment(Sequence, a + b)] + post);
        assert segments[pin..] == [Segment(Sequence, a + b)] + post;
        assert was == [Segment(Sequence, a), Segment(Sequence, b)] + post;
        assert Cuts(segments[pin..], was, [], a, b, post);
        StepNormalises(segments[pin..], was);
      }
    }

    /** Sorts the pinned segment when it is a set. */
    method SortPinned(pin: nat)
      requires pin < |segments|
      modifies this
      ensures segments == old(segments)[pin := NormSeg(old(segments)[pin])]
    {
      var s := segments[pin];
      if SetKind(s.kind) {
        var asns := SortUnique(s.asns);
        segments := segments[pin := Segment(s.kind, asns)];
      }
    }

    /** Sorting sets and merging sequence runs, segment by segment along the chain. */
    method NormaliseInPlace()
      modifies this
      ensures segments == Normalise(old(segments))
    {
      var pin := 0;
      while pin < |segments|
        invariant pin <= |segments|
        invariant segments[..pin] + Normalise(segments[pin..]) == Normalise(old(segments))
        decreases |segments| - pin
      {
        ghost var done, was := segments[..pin], segments[pin..];
        SortPinned(pin);
        NormSegTwice(was);
        assert segments[..pin] == done && segments[pin..] == [NormSeg(was[0])] + was[1..];
        Pack(pin);
        PackedPin(segments, pin, done);
        pin := pin + 1;
      }
      assert segments[..pin] == segments && segments[pin..] == [];
    }

    /** Adds one AS on the left. */
    method AddOneAs(asn: Word, kind: SegType)
      modifies this
      ensures segments == AddOne(old(segments), asn, kind)
    {
      if |segments| == 0 || |segments[0].asns| == 0 {
        segments := [Segment(kind, [asn])];
      } else if segments[0].kind == kind {
        segments := [Segment(kind, [asn] + segments[0].asns)] + segments[1..];
      } else {
        segments := [Segment(kind, [asn])] + segments;
      }
    }
  }

  lemma NormSegTwice(p: Path)
    requires p != []
    ensures Normalise([NormSeg(p[0])] + p[1..]) == Normalise(p)
    ensures NormSeg(NormSeg(p[0])) == NormSeg(p[0])
  {
    CanonFixpoint(p[0].asns);
    assert ([NormSeg(p[0])] + p[1..])[1..] == p[1..];
  }

  /** A pinned segment that can no longer grow is finished with. */
  lemma PackedPin(segs: Path, pin: nat, done: Path)
    requires pin < |segs| && segs[..pin] == done && !Packable(segs[pin..]) && NormSeg(segs[pin]) == segs[pin]
    ensures segs[..pin + 1] + Normalise(segs[pin + 1..]) == done + Normalise(segs[pin..])
  {
    NormaliseUnpacked(segs[pin..]);
    assert segs[pin..][1..] == segs[pin + 1..];
    assert segs[..pin + 1] == done + [segs[pin]];
  }

  lemma NormaliseUnpacked(p: Path)
    requires p != [] && !Packable(p) && NormSeg(p[0]) == p[0]
    ensures Normalise(p) == [p[0]] + Normalise(p[1..])
  {
    NormaliseHead(p[1..]);
  }

  /** One segment of the walk: what is copied of it and how many hops are then left. */
  method CopySegment(s: Segment, hops: int, ghost rest: Path) returns (copy: Segment, left: int)
    requires hops > 0
    ensures TakeHops([s] + rest, hops) == [copy] + TakeHops(rest, left)
  {
    left := hops;
    var cpasns := 0;
    match s.kind {
      case Set =>
        left := left - 1;
        cpasns := |s.asns|;
      case ConfedSet =>
        left := left - 1;
        cpasns := |s.asns|;
      case ConfedSequence =>
        if left < |s.asns| {
          left := |s.asns|;
        }
        cpasns := if |s.asns| < left then |s.asns| else left;
        left := left - |s.asns|;
      case Sequence =>
        cpasns := if |s.asns| < left then |s.asns| else left;
        left := left - |s.asns|;
    }
    assert cpasns <= |s.asns|;
    copy := Segment(s.kind, s.asns[..cpasns]);
    assert s.asns[..|s.asns|] == s.asns && s == Segment(s.kind, s.asns);
    assert ([s] + rest)[1..] == rest;
  }

  method TakeLeading(p: Path, hops: int) returns (newpath: Path)
    ensures newpath == TakeHops(p, hops)
  {
    newpath := [];
    var i, left := 0, hops;
    while i < |p| && left > 0
      invariant 0 <= i <= |p| && newpath + TakeHops(p[i..], left) == TakeHops(p, hops)
      decreases |p| - i
    {
      assert p[i..] == [p[i]] + p[i + 1..];
      var copy;
      copy, left := CopySegment(p[i], left, p[i + 1..]);
      newpath := newpath + [copy];
      i := i + 1;
    }
    assert TakeHops(p[i..], left) == [];
  }

  /** Reconciling with the hop counter run down along the AS_PATH's segments. */
  method ReconcileAs4(p: Path, q: Path) returns (r: Path)
    ensures r == Reconcile(p, q)
  {
    var a: int := CountHops(p);
    var b: int := CountConfeds(p);
    var c: int := CountHops(q);
    var hops := a + b - c;
    if hops < 0 {
      hops := a;
    }
    if hops == 0 {
      return q;
    }
    var newpath := TakeLeading(p, hops);
    var merged := new AsPathChain(newpath + q);
    merged.NormaliseInPlace();
    r := merged.segments;
  }
}
