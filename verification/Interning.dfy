/** Shared AS paths and attribute sets, kept in hash tables and counted by reference. */
module Interning {
  import AsPath
  import opened Wrappers

  /** What the AS path table compares: the printed text the hash is made from, and the segments. */
  datatype PathKey = PathKey(text: string, segments: AsPath.Path)

  class Aspath {
    const key: PathKey
    var refcnt: nat

    constructor (k: PathKey)
      ensures key == k && refcnt == 0
    {
      key := k;
      refcnt := 0;
    }
  }

  /** What the attribute table compares: the plain fields, and the path by address. */
  datatype AttrKey = AttrKey(body: nat, aspath: Aspath?)

  class Attr {
    const key: AttrKey
    var refcnt: nat

    constructor (k: AttrKey)
      ensures key == k && refcnt == 0
    {
      key := k;
      refcnt := 0;
    }
  }

  /** How many of the references held are to one path. */
  ghost function Direct(held: seq<Aspath>, p: Aspath): nat {
    if held == [] then 0 else Direct(held[..|held| - 1], p) + if held[|held| - 1] == p then 1 else 0
  }

  /** How many of the references held are to one attribute set. */
  ghost function Holds(held: seq<Attr>, a: Attr): nat {
    if held == [] then 0 else Holds(held[..|held| - 1], a) + if held[|held| - 1] == a then 1 else 0
  }

  /** How many of the references held are to attribute sets with one path. */
  ghost function Via(held: seq<Attr>, p: Aspath): nat {
    if held == [] then 0 else Via(held[..|held| - 1], p) + if held[|held| - 1].key.aspath == p then 1 else 0
  }

  function LessPath(held: seq<Aspath>, p: Aspath): seq<Aspath> {
    if held == [] then [] else
    if held[|held| - 1] == p then held[..|held| - 1] else LessPath(held[..|held| - 1], p) + [held[|held| - 1]]
  }

  function LessAttr(held: seq<Attr>, a: Attr): seq<Attr> {
    if held == [] then [] else
    if held[|held| - 1] == a then held[..|held| - 1] else LessAttr(held[..|held| - 1], a) + [held[|held| - 1]]
  }

  lemma DirectSnoc(held: seq<Aspath>, x: Aspath, p: Aspath)
    ensures Direct(held + [x], p) == Direct(held, p) + if x == p then 1 else 0
    ensures LessPath(held + [x], x) == held
  {
    assert (held + [x])[..|held|] == held;
  }

  lemma HoldsSnoc(held: seq<Attr>, x: Attr, a: Attr)
    ensures Holds(held + [x], a) == Holds(held, a) + if x == a then 1 else 0
  {
    assert (held + [x])[..|held|] == held;
  }

  lemma ViaSnoc(held: seq<Attr>, x: Attr, p: Aspath)
    ensures Via(held + [x], p) == Via(held, p) + if x.key.aspath == p then 1 else 0
  {
    assert (held + [x])[..|held|] == held;
  }

  lemma {:induction false} DirectLess(held: seq<Aspath>, x: Aspath, p: Aspath)
    requires x in held
    ensures Direct(held, p) == Direct(LessPath(held, x), p) + if x == p then 1 else 0
    ensures forall q :: q in LessPath(held, x) ==> q in held
  {
    var y := held[|held| - 1];
    if y != x {
      var rest := held[..|held| - 1];
      assert held == rest + [y];
      DirectLess(rest, x, p);
      DirectSnoc(LessPath(rest, x), y, p);
    }
  }

  lemma {:induction false} HoldsLess(held: seq<Attr>, x: Attr, a: Attr)
    requires x in held
    ensures Holds(held, a) == Holds(LessAttr(held, x), a) + if x == a then 1 else 0
    ensures forall b :: b in LessAttr(held, x) ==> b in held
  {
    var y := held[|held| - 1];
    if y != x {
      var rest := held[..|held| - 1];
      assert held == rest + [y];
      HoldsLess(rest, x, a);
      HoldsSnoc(LessAttr(rest, x), y, a);
    }
  }

  lemma {:induction false} ViaLess(held: seq<Attr>, x: Attr, p: Aspath)
    requires x in held
    ensures Via(held, p) == Via(LessAttr(held, x), p) + if x.key.aspath == p then 1 else 0
  {
    var y := held[|held| - 1];
    if y != x {
      var rest := held[..|held| - 1];
      assert held == rest + [y];
      ViaLess(rest, x, p);
      ViaSnoc(LessAttr(rest, x), y, p);
    }
  }

  lemma {:induction false} HeldCounts(held: seq<Attr>, a: Attr)
    ensures a in held <==> Holds(held, a) > 0
    ensures a in held && a.key.aspath != null ==> Via(held, a.key.aspath) > 0
  {
    if held != [] {
      HeldCounts(held[..|held| - 1], a);
      assert held == held[..|held| - 1] + [held[|held| - 1]];
    }
  }

  lemma {:induction false} DirectCounts(held: seq<Aspath>, p: Aspath)
    ensures p in held <==> Direct(held, p) > 0
  {
    if held != [] {
      DirectCounts(held[..|held| - 1], p);
      assert held == held[..|held| - 1] + [held[|held| - 1]];
    }
  }

  lemma {:induction false} ViaNone(held: seq<Attr>, p: Aspath)
    requires forall a :: a in held ==> a.key.aspath != p
    ensures Via(held, p) == 0
  {
    if held != [] {
      ViaNone(held[..|held| - 1], p);
    }
  }

  predicate Distinct(all: seq<Attr>) {
    all == [] || (all[|all| - 1] !in all[..|all| - 1] && Distinct(all[..|all| - 1]))
  }

  /** The counts of the listed attribute sets with one path, added up. */
  function RefSum(all: seq<Attr>, p: Aspath): nat
    reads all
  {
    if all == [] then 0 else
    RefSum(all[..|all| - 1], p) + if all[|all| - 1].key.aspath == p then all[|all| - 1].refcnt else 0
  }

  ghost function HoldSum(all: seq<Attr>, held: seq<Attr>, p: Aspath): nat {
    if all == [] then 0 else
    HoldSum(all[..|all| - 1], held, p) + if all[|all| - 1].key.aspath == p then Holds(held, all[|all| - 1]) else 0
  }

  lemma {:induction false} HoldSumSnoc(all: seq<Attr>, held: seq<Attr>, x: Attr, p: Aspath)
    requires Distinct(all)
    ensures HoldSum(all, held + [x], p) == HoldSum(all, held, p) + if x in all && x.key.aspath == p then 1 else 0
  {
    if all != [] {
      HoldSumSnoc(all[..|all| - 1], held, x, p);
      HoldsSnoc(held, x, all[|all| - 1]);
      assert all == all[..|all| - 1] + [all[|all| - 1]];
    }
  }

  lemma {:induction false} HoldSumNone(all: seq<Attr>, p: Aspath)
    ensures HoldSum(all, [], p) == 0
  {
    if all != [] {
      HoldSumNone(all[..|all| - 1], p);
    }
  }

  /** References through attribute sets, added up set by set. */
  lemma {:induction false} ViaIsSum(all: seq<Attr>, held: seq<Attr>, p: Aspath)
    requires Distinct(all) && forall a :: a in held ==> a in all
    ensures Via(held, p) == HoldSum(all, held, p)
    decreases |held|
  {
    if held == [] {
      HoldSumNone(all, p);
    } else {
      var x := held[|held| - 1];
      assert held == held[..|held| - 1] + [x];
      ViaIsSum(all, held[..|held| - 1], p);
      HoldSumSnoc(all, held[..|held| - 1], x, p);
    }
  }

  /** What a client of the tables may do next; indices name references it holds, and name nothing when out of range. */
  datatype Op =
    | NewPath(key: PathKey)
    | DropPath(i: nat)
    | NewAttr(body: nat, key: PathKey)
    | AttrOf(body: nat, i: nat)
    | SameAttr(i: nat)
    | DefaultAttr(body: nat)
    | DropAttr(i: nat)

  // ---------- the same by name ----------

  /** An attribute set by its fields and the key of its path. */
  datatype Label = Label(body: nat, path: Option<PathKey>)

  /** The references a client holds, by name. */
  datatype Ledger = Ledger(paths: seq<PathKey>, attrs: seq<Label>)

  function LabelOf(a: Attr): Label {
    Label(a.key.body, if a.key.aspath == null then None else Some(a.key.aspath.key))
  }

  function Keys(ps: seq<Aspath>): (r: seq<PathKey>)
    ensures |r| == |ps| && forall i :: 0 <= i < |r| ==> r[i] == ps[i].key
  {
    seq(|ps|, i requires 0 <= i < |ps| => ps[i].key)
  }

  function Labels(held: seq<Attr>): (r: seq<Label>)
    ensures |r| == |held| && forall i :: 0 <= i < |r| ==> r[i] == LabelOf(held[i])
  {
    seq(|held|, i requires 0 <= i < |held| => LabelOf(held[i]))
  }

  /** A list without the last occurrence of an element. */
  function Less<T(==)>(s: seq<T>, x: T): seq<T> {
    if s == [] then [] else
    if s[|s| - 1] == x then s[..|s| - 1] else Less(s[..|s| - 1], x) + [s[|s| - 1]]
  }

  function Many(s: seq<PathKey>, k: PathKey): nat {
    if s == [] then 0 else Many(s[..|s| - 1], k) + if s[|s| - 1] == k then 1 else 0
  }

  function ManyVia(s: seq<Label>, k: PathKey): nat {
    if s == [] then 0 else ManyVia(s[..|s| - 1], k) + if s[|s| - 1].path == Some(k) then 1 else 0
  }

  /** How many references to a path there are, directly and through attribute sets. */
  function References(l: Ledger, k: PathKey): nat {
    Many(l.paths, k) + ManyVia(l.attrs, k)
  }

  /** What an operation does to the references held. */
  function Next(l: Ledger, op: Op): Ledger {
    match op
    case NewPath(key) => l.(paths := l.paths + [key])
    case DropPath(i) => if i < |l.paths| then l.(paths := Less(l.paths, l.paths[i])) else l
    case NewAttr(body, key) => l.(attrs := l.attrs + [Label(body, Some(key))])
    case AttrOf(body, i) => if i < |l.paths| then l.(attrs := l.attrs + [Label(body, Some(l.paths[i]))]) else l
    case SameAttr(i) => if i < |l.attrs| then l.(attrs := l.attrs + [l.attrs[i]]) else l
    case DefaultAttr(body) => l.(attrs := l.attrs + [Label(body, Some(PathKey("", [])))])
    case DropAttr(i) => if i < |l.attrs| then l.(attrs := Less(l.attrs, l.attrs[i])) else l
  }

  function Result(l: Ledger, ops: seq<Op>): Ledger {
    if ops == [] then l else Next(Result(l, ops[..|ops| - 1]), ops[|ops| - 1])
  }

  lemma {:induction false} LessPathKeys(ps: seq<Aspath>, p: Aspath)
    requires forall q :: q in ps && q.key == p.key ==> q == p
    ensures Keys(LessPath(ps, p)) == Less(Keys(ps), p.key)
  {
    if ps != [] {
      var n := |ps| - 1;
      assert Keys(ps)[..n] == Keys(ps[..n]) && ps[n] in ps;
      LessPathKeys(ps[..n], p);
    }
  }

  lemma {:induction false} LessAttrLabels(held: seq<Attr>, a: Attr)
    requires forall b :: b in held && LabelOf(b) == LabelOf(a) ==> b == a
    ensures Labels(LessAttr(held, a)) == Less(Labels(held), LabelOf(a))
  {
    if held != [] {
      var n := |held| - 1;
      assert Labels(held)[..n] == Labels(held[..n]) && held[n] in held;
      LessAttrLabels(held[..n], a);
    }
  }

  lemma {:induction false} DirectByKey(held: seq<Aspath>, p: Aspath)
    requires forall q :: q in held && q.key == p.key ==> q == p
    ensures Direct(held, p) == Many(Keys(held), p.key)
  {
    if held != [] {
      var n := |held| - 1;
      assert Keys(held)[..n] == Keys(held[..n]) && held[n] in held;
      DirectByKey(held[..n], p);
    }
  }

  lemma {:induction false} ViaByKey(held: seq<Attr>, p: Aspath)
    requires forall a :: a in held && LabelOf(a).path == Some(p.key) ==> a.key.aspath == p
    ensures Via(held, p) == ManyVia(Labels(held), p.key)
  {
    if held != [] {
      var n := |held| - 1;
      assert Labels(held)[..n] == Labels(held[..n]) && held[n] in held;
      ViaByKey(held[..n], p);
    }
  }

  lemma {:induction false} ManyIn(s: seq<PathKey>, k: PathKey)
    ensures k in s <==> Many(s, k) > 0
  {
    if s != [] {
      ManyIn(s[..|s| - 1], k);
      assert s == s[..|s| - 1] + [s[|s| - 1]];
    }
  }

  lemma {:induction false} ManyViaFound(s: seq<Label>, k: PathKey) returns (i: nat)
    requires ManyVia(s, k) > 0
    ensures i < |s| && s[i].path == Some(k)
  {
    var n := |s| - 1;
    if s[n].path == Some(k) {
      i := n;
    } else {
      i := ManyViaFound(s[..n], k);
    }
  }

  class Store {
    var paths: map<PathKey, Aspath>
    var attrs: map<AttrKey, Attr>

    /** The references handed out and not yet returned. */
    ghost var heldPaths: seq<Aspath>
    ghost var heldAttrs: seq<Attr>

    /** Every path and attribute set that has been in a table. */
    ghost var known: set<object>

    ghost predicate LivePath(p: Aspath)
      reads this`paths
    {
      p.key in paths && paths[p.key] == p
    }

    ghost predicate LiveAttr(a: Attr)
      reads this`attrs
    {
      a.key in attrs && attrs[a.key] == a
    }

    /** A path's count is its direct references and those of the attribute sets naming it. */
    ghost predicate PathCounted(p: Aspath)
      reads this`heldPaths, this`heldAttrs, p
    {
      p.refcnt == Direct(heldPaths, p) + Via(heldAttrs, p) > 0
    }

    ghost predicate AttrCounted(a: Attr)
      reads this`heldAttrs, a
    {
      a.refcnt == Holds(heldAttrs, a) > 0
    }

    ghost predicate PathsCounted()
      reads this`paths, this`heldPaths, this`heldAttrs, this`known, known
    {
      forall k :: k in paths ==> paths[k] in known && paths[k].key == k && PathCounted(paths[k])
    }

    ghost predicate AttrsCounted()
      reads this`attrs, this`heldAttrs, this`known, known
    {
      forall k :: k in attrs ==> attrs[k] in known && attrs[k].key == k && AttrCounted(attrs[k])
    }

    /** Everything referred to is still in its table. */
    ghost predicate AllLive()
      reads this`paths, this`attrs, this`heldPaths, this`heldAttrs
    {
      && (forall p :: p in heldPaths ==> LivePath(p))
      && (forall a :: a in heldAttrs ==> LiveAttr(a) && (a.key.aspath != null ==> LivePath(a.key.aspath)))
    }

    ghost predicate Valid()
      reads this, known
    {
      PathsCounted() && AttrsCounted() && AllLive()
    }

    /** A path not in the table has no references. */
    lemma Unreferenced(p: Aspath)
      requires AllLive() && !LivePath(p)
      ensures Direct(heldPaths, p) == 0 && Via(heldAttrs, p) == 0
    {
      DirectCounts(heldPaths, p);
      ViaNone(heldAttrs, p);
    }

    constructor ()
      ensures Valid() && heldPaths == [] && heldAttrs == [] && paths == map[] && attrs == map[] && known == {}
    {
      paths, attrs := map[], map[];
      heldPaths, heldAttrs, known := [], [], {};
    }

    /** One more reference to a path already in the table. */
    method LockPath(p: Aspath)
      requires Valid() && LivePath(p)
      modifies this`heldPaths, p
      ensures Valid() && heldPaths == old(heldPaths) + [p] && p.refcnt == old(p.refcnt) + 1
    {
      p.refcnt := p.refcnt + 1;
      heldPaths := heldPaths + [p];
      forall k | k in paths ensures PathCounted(paths[k]) {
        assert old(PathCounted(paths[k]));
        DirectSnoc(old(heldPaths), p, paths[k]);
      }
    }

    /** Share a new path: the equal one in the table, or this one put there. */
    method InternPath(p: Aspath) returns (q: Aspath)
      requires Valid() && p.refcnt == 0
      modifies this`paths, this`heldPaths, this`known, p, known
      ensures Valid() && heldPaths == old(heldPaths) + [q] && heldAttrs == old(heldAttrs) && attrs == old(attrs)
      ensures q.key == p.key && paths == old(paths)[q.key := q] && (q == p || q in old(known))
      ensures known <= old(known) + {q}
    {
      if p.key in paths {
        q := paths[p.key];
        LockPath(q);
      } else {
        q := p;
        AddPath(p);
      }
    }

    twostate lemma AddKeeps(p: Aspath)
      requires old(Valid() && p.key !in paths) && Direct(old(heldPaths), p) == 0 && Via(heldAttrs, p) == 0
      requires attrs == old(attrs) && heldAttrs == old(heldAttrs) && heldPaths == old(heldPaths) + [p]
      requires paths == old(paths)[p.key := p] && known == old(known) + {p} && p.refcnt == 1
      requires forall k :: k in old(paths) ==> paths[k].refcnt == old(paths[k].refcnt)
      requires forall k :: k in attrs ==> attrs[k].refcnt == old(attrs[k].refcnt)
      ensures Valid()
    {
      forall k | k in paths ensures PathCounted(paths[k]) {
        DirectSnoc(old(heldPaths), p, paths[k]);
        if k != p.key {
          assert old(PathCounted(paths[k]));
        }
      }
      forall k | k in attrs ensures AttrCounted(attrs[k]) {
        assert old(AttrCounted(attrs[k]));
      }
    }

    method AddPath(p: Aspath)
      requires Valid() && p.refcnt == 0 && p.key !in paths
      modifies this`paths, this`heldPaths, this`known, p
      ensures Valid() && heldPaths == old(heldPaths) + [p]
      ensures paths == old(paths)[p.key := p] && known == old(known) + {p}
    {
      Unreferenced(p);
      paths := paths[p.key := p];
      p.refcnt := 1;
      heldPaths := heldPaths + [p];
      known := known + {p};
      AddKeeps(p);
    }

    twostate lemma ReleaseKeeps(p: Aspath)
      requires old(Valid() && p in heldPaths)
      requires attrs == old(attrs) && heldAttrs == old(heldAttrs) && heldPaths == LessPath(old(heldPaths), p)
      requires known == old(known) && p.refcnt == old(p.refcnt) - 1
      requires paths == if p.refcnt == 0 then old(paths) - {p.key} else old(paths)
      requires forall k :: k in paths && k != p.key ==> paths[k].refcnt == old(paths[k].refcnt)
      requires forall k :: k in attrs ==> attrs[k].refcnt == old(attrs[k].refcnt)
      ensures Valid()
    {
      assert old(LivePath(p) && PathCounted(p));
      DirectLess(old(heldPaths), p, p);
      DirectCounts(heldPaths, p);
      forall a | a in heldAttrs ensures p.refcnt == 0 ==> a.key.aspath != p {
        HeldCounts(heldAttrs, a);
      }
      forall k | k in paths ensures PathCounted(paths[k]) {
        assert old(PathCounted(paths[k]));
        DirectLess(old(heldPaths), p, paths[k]);
      }
      forall k | k in attrs ensures AttrCounted(attrs[k]) {
        assert old(AttrCounted(attrs[k]));
      }
    }

    /** Return a reference to a path; with the last one it leaves the table. */
    method UninternPath(p: Aspath)
      requires Valid() && p in heldPaths
      modifies this`paths, this`heldPaths, p
      ensures Valid() && heldPaths == LessPath(old(heldPaths), p) && heldAttrs == old(heldAttrs) && known == old(known)
      ensures paths == if old(p.refcnt) == 1 then old(paths) - {p.key} else old(paths)
    {
      assert LivePath(p) && PathCounted(paths[p.key]);
      p.refcnt := p.refcnt - 1;
      if p.refcnt == 0 {
        assert LivePath(p);
        paths := paths - {p.key};
      }
      heldPaths := LessPath(heldPaths, p);
      ReleaseKeeps(p);
    }

    /** A reference to an attribute set's path becomes one through a reference to the set. */
    twostate lemma AttachKeeps(k: AttrKey)
      requires old(Valid() && (k.aspath != null ==> k.aspath in heldPaths))
      requires k in attrs && attrs[k].key == k && heldAttrs == old(heldAttrs) + [attrs[k]]
      requires paths == old(paths) && attrs == old(attrs)[k := attrs[k]]
      requires if k in old(attrs) then attrs[k] == old(attrs[k]) && attrs[k].refcnt == old(attrs[k].refcnt) + 1
               else attrs[k] !in old(heldAttrs) && attrs[k].refcnt == 1
      requires heldPaths == if k.aspath == null then old(heldPaths) else LessPath(old(heldPaths), k.aspath)
      requires forall i :: i in old(attrs) && i != k ==> attrs[i].refcnt == old(attrs[i].refcnt)
      requires forall i :: i in paths ==> paths[i].refcnt == old(paths[i].refcnt)
      requires known == old(known) + {attrs[k]}
      ensures Valid()
    {
      var a := attrs[k];
      forall i | i in paths ensures PathCounted(paths[i]) {
        assert old(PathCounted(paths[i]));
        ViaSnoc(old(heldAttrs), a, paths[i]);
        if k.aspath != null {
          DirectLess(old(heldPaths), k.aspath, paths[i]);
        }
      }
      HeldCounts(old(heldAttrs), a);
      forall i | i in attrs ensures AttrCounted(attrs[i]) {
        HoldsSnoc(old(heldAttrs), a, attrs[i]);
        if i in old(attrs) {
          assert old(AttrCounted(attrs[i]));
        }
      }
      if k.aspath != null {
        DirectLess(old(heldPaths), k.aspath, k.aspath);
      }
    }

    /** Find or make the attribute set for fields and a path on which a reference is held, which the set takes over. */
    method Attach(k: AttrKey) returns (a: Attr)
      requires Valid() && (k.aspath != null ==> k.aspath in heldPaths)
      modifies this`attrs, this`heldAttrs, this`heldPaths, this`known, known
      ensures Valid() && a.key == k && attrs == old(attrs)[k := a] && (fresh(a) || a in old(known))
      ensures known == old(known) + {a}
      ensures heldAttrs == old(heldAttrs) + [a]
      ensures heldPaths == if k.aspath == null then old(heldPaths) else LessPath(old(heldPaths), k.aspath)
    {
      if k in attrs {
        a := attrs[k];
      } else {
        a := new Attr(k);
        attrs := attrs[k := a];
        known := known + {a};
      }
      a.refcnt := a.refcnt + 1;
      heldAttrs := heldAttrs + [a];
      if k.aspath != null {
        heldPaths := LessPath(heldPaths, k.aspath);
      }
      AttachKeeps(k);
    }

    /** A reference through an attribute set becomes one to its path. */
    twostate lemma DetachKeeps(a: Attr)
      requires old(Valid() && a in heldAttrs)
      requires paths == old(paths) && a.refcnt == old(a.refcnt) - 1
      requires attrs == if a.refcnt == 0 then old(attrs) - {a.key} else old(attrs)
      requires heldAttrs == LessAttr(old(heldAttrs), a)
      requires heldPaths == if a.key.aspath == null then old(heldPaths) else old(heldPaths) + [a.key.aspath]
      requires forall i :: i in attrs && i != a.key ==> attrs[i].refcnt == old(attrs[i].refcnt)
      requires forall i :: i in paths ==> paths[i].refcnt == old(paths[i].refcnt)
      requires known == old(known)
      ensures Valid()
    {
      forall i | i in paths ensures PathCounted(paths[i]) {
        assert old(PathCounted(paths[i]));
        ViaLess(old(heldAttrs), a, paths[i]);
        if a.key.aspath != null {
          DirectSnoc(old(heldPaths), a.key.aspath, paths[i]);
        }
      }
      HoldsLess(old(heldAttrs), a, a);
      HeldCounts(heldAttrs, a);
      forall i | i in attrs ensures AttrCounted(attrs[i]) {
        assert old(AttrCounted(attrs[i]));
        HoldsLess(old(heldAttrs), a, attrs[i]);
      }
    }

    /** Return a reference to an attribute set, keeping one on its path; with the last one the set leaves the table. */
    method Detach(a: Attr)
      requires Valid() && a in heldAttrs
      modifies this`attrs, this`heldAttrs, this`heldPaths, a
      ensures Valid() && heldAttrs == LessAttr(old(heldAttrs), a)
      ensures heldPaths == if a.key.aspath == null then old(heldPaths) else old(heldPaths) + [a.key.aspath]
      ensures attrs == if old(a.refcnt) == 1 then old(attrs) - {a.key} else old(attrs)
    {
      assert LiveAttr(a) && AttrCounted(a);
      a.refcnt := a.refcnt - 1;
      if a.refcnt == 0 {
        assert LiveAttr(a);
        attrs := attrs - {a.key};
      }
      heldAttrs := LessAttr(heldAttrs, a);
      if a.key.aspath != null {
        heldPaths := heldPaths + [a.key.aspath];
      }
      DetachKeeps(a);
    }

    lemma {:induction false} SumOfCounts(all: seq<Attr>, p: Aspath)
      requires Valid() && forall a :: a in all ==> LiveAttr(a)
      ensures RefSum(all, p) == HoldSum(all, heldAttrs, p)
      decreases |all|
    {
      if all != [] {
        var a := all[|all| - 1];
        assert a in all && LiveAttr(a) && AttrCounted(attrs[a.key]);
        forall b | b in all[..|all| - 1] ensures LiveAttr(b) { assert b in all; }
        SumOfCounts(all[..|all| - 1], p);
      }
    }

    /**
     * Reference conservation: however the interned attribute sets are listed, a path's count is the sum of the counts
     * of those naming it plus the direct references held on it.
     */
    lemma Conservation(all: seq<Attr>, p: Aspath)
      requires Valid() && LivePath(p)
      requires Distinct(all) && forall a :: a in all <==> a in attrs.Values
      ensures p.refcnt == RefSum(all, p) + Direct(heldPaths, p)
    {
      assert PathCounted(paths[p.key]);
      forall a | a in all ensures LiveAttr(a) {
        var k :| k in attrs && attrs[k] == a;
        assert attrs[k].key == k;
      }
      forall a | a in heldAttrs ensures a in all {
        assert LiveAttr(a) && a.key in attrs.Keys;
      }
      SumOfCounts(all, p);
      ViaIsSum(all, heldAttrs, p);
    }

    /** Nothing is freed while referenced: an attribute set held, or in the table, has its path in the table. */
    lemma NothingDangles(a: Attr)
      requires Valid() && (a in heldAttrs || LiveAttr(a))
      ensures LiveAttr(a) && a in heldAttrs && a.refcnt > 0
      ensures a.key.aspath != null ==> LivePath(a.key.aspath) && a.key.aspath.refcnt > 0
    {
      HeldCounts(heldAttrs, a);
      assert LiveAttr(a) && AttrCounted(attrs[a.key]);
      if a.key.aspath != null {
        assert LivePath(a.key.aspath) && PathCounted(paths[a.key.aspath.key]);
      }
    }

    /** Nothing is kept unreferenced: once every reference is returned both tables are empty. */
    lemma AllReturned()
      requires Valid() && heldPaths == [] && heldAttrs == []
      ensures paths == map[] && attrs == map[]
    {
      forall k ensures k !in paths {
        assert k in paths ==> PathCounted(paths[k]);
      }
      forall k ensures k !in attrs {
        assert k in attrs ==> AttrCounted(attrs[k]);
      }
    }

    /** A reference to a path, shared or not yet. */
    method HoldPath(p: Aspath) returns (q: Aspath)
      requires Valid() && (LivePath(p) || p.refcnt == 0)
      modifies this`paths, this`heldPaths, this`known, p, known
      ensures Valid() && heldPaths == old(heldPaths) + [q] && heldAttrs == old(heldAttrs) && attrs == old(attrs)
      ensures q.key == p.key && paths == old(paths)[q.key := q] && (q == p || q in old(known))
      ensures known <= old(known) + {q}
      ensures old(LivePath(p)) ==> q == p
    {
      assert LivePath(p) ==> PathCounted(paths[p.key]);
      if p.refcnt == 0 {
        q := InternPath(p);
      } else {
        q := p;
        LockPath(p);
      }
    }

    /** Share an attribute set, and its path with it. */
    method InternAttr(body: nat, p: Aspath?) returns (a: Attr)
      requires Valid() && (p != null ==> LivePath(p) || p.refcnt == 0)
      modifies this, p, known
      ensures Valid() && heldAttrs == old(heldAttrs) + [a] && heldPaths == old(heldPaths)
      ensures a.key.body == body && (a.key.aspath == null <==> p == null) && (p != null ==> a.key.aspath.key == p.key)
      ensures p != null && old(LivePath(p)) ==> a.key.aspath == p
      ensures known <= old(known) + {p, a} && (fresh(a) || a in old(known))
    {
      if p == null {
        a := Attach(AttrKey(body, null));
      } else {
        var q := HoldPath(p);
        DirectSnoc(old(heldPaths), q, q);
        a := Attach(AttrKey(body, q));
      }
    }

    /** Return a reference to an attribute set, and to its path with it. */
    method UninternAttr(a: Attr)
      requires Valid() && a in heldAttrs
      modifies this, known
      ensures Valid() && heldAttrs == LessAttr(old(heldAttrs), a) && heldPaths == old(heldPaths) && known == old(known)
    {
      assert LiveAttr(a) && (a.key.aspath != null ==> LivePath(a.key.aspath));
      Detach(a);
      if a.key.aspath != null {
        DirectSnoc(old(heldPaths), a.key.aspath, a.key.aspath);
        UninternPath(a.key.aspath);
      }
    }

    /** A reference to the empty path. */
    method EmptyPath() returns (q: Aspath)
      requires Valid()
      modifies this`paths, this`heldPaths, this`known, known
      ensures Valid() && heldPaths == old(heldPaths) + [q] && heldAttrs == old(heldAttrs)
      ensures LivePath(q) && q.key == PathKey("", [])
      ensures known <= old(known) + {q} && (fresh(q) || q in old(known))
    {
      var p := new Aspath(PathKey("", []));
      q := InternPath(p);
      assert LivePath(q) && PathCounted(paths[q.key]);
    }

    /** The attribute set of a network statement: an empty path, shared and then left to the set alone. */
    method DefaultIntern(body: nat) returns (a: Attr)
      requires Valid()
      modifies this, known
      ensures Valid() && heldAttrs == old(heldAttrs) + [a] && heldPaths == old(heldPaths)
      ensures a.key.body == body && a.key.aspath != null && a.key.aspath.key == PathKey("", [])
      ensures known <= old(known) + {a, a.key.aspath} && (fresh(a) || a in old(known))
      ensures fresh(a.key.aspath) || a.key.aspath in old(known)
    {
      var q := EmptyPath();
      DirectSnoc(old(heldPaths), q, q);
      a := InternAttr(body, q);
      UninternPath(q);
    }

    /** The references held, by name. */
    ghost function Books(): Ledger
      reads this`heldPaths, this`heldAttrs
    {
      Ledger(Keys(heldPaths), Labels(heldAttrs))
    }

    /** Held paths with one key are one path, and held attribute sets with one label are one set. */
    lemma HeldByName()
      requires AllLive()
      ensures forall p, q :: p in heldPaths && q in heldPaths && p.key == q.key ==> p == q
      ensures forall a, b :: a in heldAttrs && b in heldAttrs && LabelOf(a) == LabelOf(b) ==> a == b
    {
      forall a, b | a in heldAttrs && b in heldAttrs && LabelOf(a) == LabelOf(b) ensures a == b {
        assert LiveAttr(a) && LiveAttr(b);
        assert a.key == b.key;
      }
    }

    /** A path in the table is counted by the references held, by name. */
    lemma CountedByName(p: Aspath)
      requires Valid() && LivePath(p)
      ensures p.refcnt == References(Books(), p.key) > 0
    {
      assert PathCounted(paths[p.key]);
      DirectByKey(heldPaths, p);
      ViaByKey(heldAttrs, p);
    }

    /** A path is in the table exactly when it is referred to. */
    lemma KnownByName(k: PathKey)
      requires Valid()
      ensures k in paths <==> References(Books(), k) > 0
    {
      if k in paths {
        CountedByName(paths[k]);
      }
      if Many(Books().paths, k) > 0 {
        ManyIn(Books().paths, k);
        var i :| 0 <= i < |heldPaths| && Keys(heldPaths)[i] == k;
        assert LivePath(heldPaths[i]);
      }
      if ManyVia(Books().attrs, k) > 0 {
        var i := ManyViaFound(Labels(heldAttrs), k);
        assert heldAttrs[i] in heldAttrs && LivePath(heldAttrs[i].key.aspath);
      }
    }

    method PathStep(op: Op, ps: seq<Aspath>) returns (ps': seq<Aspath>)
      requires Valid() && ps == heldPaths && (op.NewPath? || op.DropPath?)
      modifies this`paths, this`heldPaths, this`known, known
      ensures Valid() && ps' == heldPaths && heldAttrs == old(heldAttrs)
      ensures Books() == Next(old(Books()), op)
      ensures forall o :: o in known ==> o in old(known) || fresh(o)
    {
      match op {
        case NewPath(key) => {
          var p := new Aspath(key);
          var q := InternPath(p);
          ps' := ps + [q];
        }
        case DropPath(i) => {
          ps' := ps;
          if i < |ps| {
            assert LivePath(ps[i]);
            HeldByName();
            LessPathKeys(ps, ps[i]);
            UninternPath(ps[i]);
            ps' := LessPath(ps, ps[i]);
          }
        }
      }
    }

    /** One more reference to an attribute set with given fields and path. */
    method Refer(body: nat, p: Aspath?, held: seq<Attr>) returns (held': seq<Attr>)
      requires Valid() && held == heldAttrs && (p != null ==> LivePath(p) || p.refcnt == 0)
      modifies this, p, known
      ensures Valid() && heldPaths == old(heldPaths) && held' == heldAttrs
      ensures Labels(held') == Labels(held) + [Label(body, if p == null then None else Some(p.key))]
      ensures forall o :: o in known ==> o in old(known) || o == p || fresh(o)
    {
      var a := InternAttr(body, p);
      held' := held + [a];
    }

    method AttrStep(op: Op, ps: seq<Aspath>, held: seq<Attr>) returns (held': seq<Attr>)
      requires Valid() && ps == heldPaths && held == heldAttrs && !op.NewPath? && !op.DropPath?
      modifies this, known
      ensures Valid() && heldPaths == old(heldPaths) && held' == heldAttrs
      ensures Books() == Next(old(Books()), op)
      ensures forall o :: o in known ==> o in old(known) || fresh(o)
    {
      held' := held;
      match op {
        case NewAttr(body, key) => {
          var p := new Aspath(key);
          held' := Refer(body, p, held);
        }
        case AttrOf(body, i) => {
          if i < |ps| {
            assert LivePath(ps[i]);
            held' := Refer(body, ps[i], held);
          }
        }
        case SameAttr(i) => {
          if i < |held| {
            assert LiveAttr(held[i]);
            held' := Refer(held[i].key.body, held[i].key.aspath, held);
          }
        }
        case DefaultAttr(body) => {
          var a := DefaultIntern(body);
          held' := held + [a];
        }
        case DropAttr(i) => {
          if i < |held| {
            HeldByName();
            LessAttrLabels(held, held[i]);
            UninternAttr(held[i]);
            held' := LessAttr(held, held[i]);
          }
        }
      }
    }

    /**
     * Any run of a client that returns only references it holds: the references are those the operations spell out, a
     * path is in the table exactly while it is referred to, and its count is the number of references.
     */
    method Run(ops: seq<Op>, ps: seq<Aspath>, held: seq<Attr>) returns (ps': seq<Aspath>, held': seq<Attr>)
      requires Valid() && ps == heldPaths && held == heldAttrs
      modifies this, known
      ensures Valid() && ps' == heldPaths && held' == heldAttrs
      ensures Books() == Result(old(Books()), ops)
      ensures forall k :: k in paths <==> References(Result(old(Books()), ops), k) > 0
      ensures forall k :: k in paths ==> paths[k].refcnt == References(Result(old(Books()), ops), k)
      ensures Result(old(Books()), ops) == Ledger([], []) ==> paths == map[] && attrs == map[]
    {
      ps', held' := ps, held;
      for i := 0 to |ops|
        invariant Valid() && ps' == heldPaths && held' == heldAttrs
        invariant Books() == Result(old(Books()), ops[..i])
        invariant forall o :: o in known ==> o in old(known) || fresh(o)
      {
        assert ops[..i + 1][..i] == ops[..i];
        if ops[i].NewPath? || ops[i].DropPath? {
          ps' := PathStep(ops[i], ps');
        } else {
          held' := AttrStep(ops[i], ps', held');
        }
      }
      assert ops[..|ops|] == ops;
      forall k ensures k in paths <==> References(Books(), k) > 0 {
        KnownByName(k);
      }
      forall k | k in paths ensures paths[k].refcnt == References(Books(), k) {
        CountedByName(paths[k]);
      }
      if Books() == Ledger([], []) {
        AllReturned();
      }
    }
  }
}
