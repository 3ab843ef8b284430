/** Runs of a client of the trie: getting, holding, filling and releasing nodes in any order. */
module TableRuns {
  import opened NexthopCache
  import opened Prefixes
  import opened Table
  import opened Wrappers

  /** What a client does next; indices name holds it has, and name nothing when out of range. */
  datatype Op<T> =
    | Get(p: Bits)
    | Hold(i: nat)
    | Release(i: nat)
    | Fill(i: nat, info: T)
    | Empty(i: nat)

  /** How often a node is held. */
  function Times<T>(holds: seq<Node<T>>, n: Node<T>): nat {
    if holds == [] then 0 else Times(holds[..|holds| - 1], n) + if holds[|holds| - 1] == n then 1 else 0
  }

  lemma TimesSnoc<T>(holds: seq<Node<T>>, x: Node<T>, n: Node<T>)
    ensures Times(holds + [x], n) == Times(holds, n) + if x == n then 1 else 0
  {
    assert (holds + [x])[..|holds|] == holds;
  }

  lemma {:induction false} TimesIn<T>(holds: seq<Node<T>>, n: Node<T>)
    ensures n in holds <==> Times(holds, n) > 0
  {
    if holds != [] {
      TimesIn(holds[..|holds| - 1], n);
      assert holds == holds[..|holds| - 1] + [holds[|holds| - 1]];
    }
  }

  function Less<T>(holds: seq<Node<T>>, i: nat): seq<Node<T>>
    requires i < |holds|
  {
    holds[..i] + holds[i + 1..]
  }

  lemma {:induction false} TimesConcat<T>(a: seq<Node<T>>, b: seq<Node<T>>, n: Node<T>)
    ensures Times(a + b, n) == Times(a, n) + Times(b, n)
  {
    if b == [] {
      assert a + b == a;
    } else {
      assert (a + b)[..|a + b| - 1] == a + b[..|b| - 1];
      TimesConcat(a, b[..|b| - 1], n);
    }
  }

  lemma TimesLess<T>(holds: seq<Node<T>>, i: nat, n: Node<T>)
    requires i < |holds|
    ensures Times(holds, n) == Times(Less(holds, i), n) + if holds[i] == n then 1 else 0
  {
    assert holds == holds[..i] + [holds[i]] + holds[i + 1..];
    TimesConcat(holds[..i] + [holds[i]], holds[i + 1..], n);
    TimesSnoc(holds[..i], holds[i], n);
    TimesConcat(holds[..i], holds[i + 1..], n);
  }

  // ---------- the same on prefixes alone ----------

  /** The prefixes held, in order, and the plain prefix map. */
  datatype View<T> = View(names: seq<Bits>, entries: map<Bits, T>)

  function Names<T>(holds: seq<Node<T>>): (r: seq<Bits>)
    ensures |r| == |holds| && forall i :: 0 <= i < |r| ==> r[i] == holds[i].p
  {
    seq(|holds|, i requires 0 <= i < |holds| => holds[i].p)
  }

  function Cut(s: seq<Bits>, i: nat): seq<Bits>
    requires i < |s|
  {
    s[..i] + s[i + 1..]
  }

  /** How often a prefix occurs. */
  function Many(s: seq<Bits>, p: Bits): nat {
    if s == [] then 0 else Many(s[..|s| - 1], p) + if s[|s| - 1] == p then 1 else 0
  }

  /** An operation on what is held and mapped; the last hold on a prefix stays as long as it has an entry. */
  function Next<T>(v: View<T>, op: Op<T>): View<T> {
    match op
    case Get(p) => v.(names := v.names + [p])
    case Hold(i) => if i < |v.names| then v.(names := v.names + [v.names[i]]) else v
    case Release(i) =>
      if i < |v.names| && (Many(v.names, v.names[i]) == 1 ==> v.names[i] !in v.entries)
      then v.(names := Cut(v.names, i)) else v
    case Fill(i, info) => if i < |v.names| then v.(entries := v.entries[v.names[i] := info]) else v
    case Empty(i) => if i < |v.names| then v.(entries := v.entries - {v.names[i]}) else v
  }

  function Result<T>(v: View<T>, ops: seq<Op<T>>): View<T> {
    if ops == [] then v else Next(Result(v, ops[..|ops| - 1]), ops[|ops| - 1])
  }

  lemma {:induction false} TimesNames<T>(holds: seq<Node<T>>, n: Node<T>)
    requires forall m :: m in holds && m.p == n.p ==> m == n
    ensures Times(holds, n) == Many(Names(holds), n.p)
  {
    if holds != [] {
      var k := |holds| - 1;
      assert Names(holds)[..k] == Names(holds[..k]);
      assert holds[k] in holds;
      TimesNames(holds[..k], n);
    }
  }

  /** Every node's lock is the number of times it is held, and what is held is in the trie. */
  ghost predicate Tallied<T>(t: BgpTable<T>, holds: seq<Node<T>>)
    reads t, t.nodes
  {
    && t.Valid()
    && (forall n :: n in t.nodes ==> n.lock == Times(holds, n))
    && (forall n :: n in holds ==> n in t.nodes)
  }

  method GetStep<T>(t: BgpTable<T>, holds: seq<Node<T>>, p: Bits) returns (holds': seq<Node<T>>)
    requires Tallied(t, holds)
    modifies t, t.nodes
    ensures Tallied(t, holds') && t.entries == old(t.entries) && fresh(t.nodes - old(t.nodes))
    ensures |holds'| == |holds| + 1 && holds'[..|holds|] == holds && holds'[|holds|].p == p
  {
    var r := t.NodeGet(p);
    holds' := holds + [r];
    forall n | n in t.nodes ensures n.lock == Times(holds', n) {
      TimesSnoc(holds, r, n);
      TimesIn(holds, n);
    }
  }

  method ReleaseStep<T>(t: BgpTable<T>, holds: seq<Node<T>>, i: nat) returns (holds': seq<Node<T>>)
    requires Tallied(t, holds) && i < |holds| && (holds[i].lock == 1 ==> holds[i].info == None)
    modifies t, t.nodes
    ensures Tallied(t, holds') && t.entries == old(t.entries) && holds' == Less(holds, i)
    ensures t.nodes <= old(t.nodes) && |old(t.nodes)| <= |t.nodes| + 2
  {
    var x := holds[i];
    TimesIn(holds, x);
    holds' := Less(holds, i);
    t.Unlock(x);
    forall n | n in old(t.nodes) ensures n.lock == Times(holds', n) {
      TimesLess(holds, i, n);
    }
    forall n | n in holds' ensures n in t.nodes {
      TimesIn(holds', n);
      assert n in holds;
    }
  }

  method HoldStep<T>(t: BgpTable<T>, holds: seq<Node<T>>, i: nat) returns (holds': seq<Node<T>>)
    requires Tallied(t, holds) && i < |holds|
    modifies t, t.nodes
    ensures Tallied(t, holds') && t.entries == old(t.entries) && t.nodes == old(t.nodes)
    ensures holds' == holds + [holds[i]]
  {
    t.Lock(holds[i]);
    holds' := holds + [holds[i]];
    forall n | n in t.nodes ensures n.lock == Times(holds', n) {
      TimesSnoc(holds, holds[i], n);
    }
  }

  /** The whole of a trie with its holds, seen as prefixes. */
  ghost function Seen<T>(t: BgpTable<T>, holds: seq<Node<T>>): View<T>
    reads t
  {
    View(Names(holds), t.entries)
  }

  /** Giving up a hold is allowed on the trie exactly when it is on the prefixes. */
  lemma ReleaseGuard<T>(t: BgpTable<T>, holds: seq<Node<T>>, i: nat)
    requires Tallied(t, holds) && i < |holds|
    ensures holds[i].lock == Many(Names(holds), holds[i].p)
    ensures holds[i].info == None <==> holds[i].p !in t.entries
  {
    var n := holds[i];
    assert n in t.nodes && n.info == BgpTable<T>.Get(t.entries, n.p);
    t.DistinctPrefixes();
    TimesNames(holds, n);
  }

  /** One operation acts on held prefixes and map as it says; the last hold goes only once the payload is gone. */
  method Step<T>(t: BgpTable<T>, holds: seq<Node<T>>, op: Op<T>) returns (holds': seq<Node<T>>)
    requires Tallied(t, holds)
    modifies t, t.nodes
    ensures Tallied(t, holds') && fresh(t.nodes - old(t.nodes))
    ensures Seen(t, holds') == Next(old(Seen(t, holds)), op)
  {
    holds' := holds;
    match op {
      case Get(p) => {
        holds' := GetStep(t, holds, p);
        assert Names(holds') == Names(holds) + [p];
      }
      case Hold(i) => {
        if i < |holds| {
          holds' := HoldStep(t, holds, i);
          assert Names(holds') == Names(holds) + [holds[i].p];
        }
      }
      case Release(i) => {
        if i < |holds| {
          ReleaseGuard(t, holds, i);
          if holds[i].lock == 1 ==> holds[i].info == None {
            holds' := ReleaseStep(t, holds, i);
            assert Names(holds') == Cut(Names(holds), i);
          }
        }
      }
      case Fill(i, info) => {
        if i < |holds| {
          TimesIn(holds, holds[i]);
          t.SetInfo(holds[i], info);
        }
      }
      case Empty(i) => {
        if i < |holds| { t.ClearInfo(holds[i]); }
      }
    }
  }

  /** A prefix has a node: it is held, or two held prefixes part there. */
  ghost predicate Present(names: seq<Bits>, q: Bits) {
    q in names || exists a, b :: a in names && b in names && q == Common(a, b)
  }

  lemma HeldNames<T>(t: BgpTable<T>, holds: seq<Node<T>>, q: Bits)
    requires Tallied(t, holds)
    ensures t.HeldPrefix(q) <==> q in Names(holds)
  {
    if t.HeldPrefix(q) {
      var n :| n in t.nodes && n.p == q && n.lock > 0;
      TimesIn(holds, n);
      var i :| 0 <= i < |holds| && holds[i] == n;
      assert Names(holds)[i] == q;
    }
    if q in Names(holds) {
      var i :| 0 <= i < |holds| && Names(holds)[i] == q;
      TimesIn(holds, holds[i]);
      assert holds[i] in t.nodes;
    }
  }

  /** The nodes are settled by the prefixes held. */
  lemma NodesOfHolds<T>(t: BgpTable<T>, holds: seq<Node<T>>, q: Bits)
    requires Tallied(t, holds)
    ensures t.HasNode(q) <==> Present(Names(holds), q)
  {
    t.CompressedShape(q);
    forall a { HeldNames(t, holds, a); }
  }

  /**
   * Any run of operations: what is held and mapped is what the operations make of it on prefixes alone, every lock is
   * the number of holds, and the nodes are those the holds call for, so that none are left when nothing is held.
   */
  method Run<T>(t: BgpTable<T>, ops: seq<Op<T>>) returns (holds: seq<Node<T>>)
    requires t.Valid() && t.nodes == {} && t.entries == map[]
    modifies t, t.nodes
    ensures Tallied(t, holds) && Seen(t, holds) == Result(View([], map[]), ops)
    ensures forall q :: t.HasNode(q) <==> Present(Result(View([], map[]), ops).names, q)
    ensures Result(View([], map[]), ops).names == [] ==> t.nodes == {} && t.top == null && t.count == 0
  {
    holds := [];
    for k := 0 to |ops|
      invariant Tallied(t, holds) && fresh(t.nodes)
      invariant Seen(t, holds) == Result(View([], map[]), ops[..k])
    {
      assert ops[..k + 1][..k] == ops[..k];
      holds := Step(t, holds, ops[k]);
    }
    assert ops[..|ops|] == ops;
    forall q ensures t.HasNode(q) <==> Present(Names(holds), q) {
      NodesOfHolds(t, holds, q);
    }
    if holds == [] {
      UnheldIsEmpty(t);
    }
  }
}
