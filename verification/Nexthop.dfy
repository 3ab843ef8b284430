/**
 * The two clients of the trie in bgp_nexthop.c: the next-hop cache, whose entries
 * hold one lock each, and the table of connected networks, whose entries hold one
 * lock per configured address.
 */
module NexthopCache {
  import opened Wrappers
  import opened Prefixes
  import opened Table

  /** The cache discipline: one lock per entry, none on glue, nobody else around. */
  ghost predicate OneLockEach<T>(t: BgpTable<T>)
    reads t, t.nodes
  {
    forall n <- t.nodes :: n.lock == if n.info.Some? then 1 else 0
  }

  /** A trie whose nodes are all unheld is empty: every unheld node needs two children. */
  lemma UnheldIsEmpty<T>(t: BgpTable<T>)
    requires t.Valid() && forall n <- t.nodes :: n.lock == 0
    ensures t.nodes == {} && t.top == null && t.count == 0 && t.entries == map[]
  {
    if n :| n in t.nodes {
      var m := t.HeldBelow(n);
    }
    if q :| q in t.entries {
      var n := t.EntryNode(q);
    }
  }

  /** The cache discipline while a traversal stands at rn, adding its own hold there. */
  ghost predicate Walking<T>(t: BgpTable<T>, rn: Node?<T>)
    reads t, t.nodes
  {
    && (rn != null ==> rn in t.nodes)
    && forall n <- t.nodes :: n.lock == (if n.info.Some? then 1 else 0) + if n == rn then 1 else 0
  }

  /** One iteration of the walk: release the entry at rn, if any, and move on. */
  method ReleaseAndStep<T>(t: BgpTable<T>, rn: Node<T>) returns (next: Node?<T>)
    requires t.Valid() && rn in t.nodes && Walking(t, rn)
    modifies t, t.nodes
    ensures t.Valid() && t.nodes <= old(t.nodes) && Walking(t, next)
    ensures BgpTable<T>.Succeeds(old(t.nodes), rn.p, next)
    ensures forall n <- old(t.nodes) :: n.info == if n == rn then None else old(n.info)
    ensures forall n <- old(t.nodes) :: n.info.Some? ==> n in t.nodes
  {
    if rn.info.Some? {
      t.ClearInfo(rn);
      t.Unlock(rn);
    }
    next := t.RouteNext(rn);
  }

  /** During the walk, exactly the entries not yet released still carry their payload, in the trie. */
  ghost predicate Accounted<T>(t: BgpTable<T>, wanted: set<Node<T>>, freed: seq<Node<T>>)
    reads t, t.nodes
  {
    && (forall n <- wanted :: n in freed || n in t.nodes)
    && (forall n <- t.nodes :: n.info.Some? <==> n in wanted && n !in freed)
  }

  /** The invariant of the reset loop: the walk at rn, in a trie that shrinks under it. */
  ghost predicate Resetting<T>(t: BgpTable<T>, rn: Node?<T>, wanted: set<Node<T>>, freed: seq<Node<T>>)
    reads t, t.nodes
  {
    Walking(t, rn) && Accounted(t, wanted, freed) && BgpTable<T>.Progress(wanted, freed, rn)
  }

  method ResetStep<T>(t: BgpTable<T>, rn: Node<T>, ghost wanted: set<Node<T>>, ghost freed: seq<Node<T>>)
    returns (next: Node?<T>, ghost met: seq<Node<T>>)
    requires t.Valid() && rn in t.nodes && Resetting(t, rn, wanted, freed)
    requires forall n <- wanted :: n.p == rn.p ==> n == rn
    modifies t, t.nodes
    ensures t.Valid() && t.nodes <= old(t.nodes) && Resetting(t, next, wanted, met)
    ensures BgpTable<T>.Succeeds(old(t.nodes), rn.p, next)
  {
    met := if rn.info.Some? then freed + [rn] else freed;
    next := ReleaseAndStep(t, rn);
    BgpTable<T>.ProgressStep(wanted, freed, rn, next, old(t.nodes));
  }

  /** Empties the cache while walking it: each entry is met once, in order, though nodes go away mid-walk. */
  method Reset<T>(t: BgpTable<T>) returns (ghost freed: seq<Node<T>>)
    requires t.Valid() && OneLockEach(t)
    modifies t, t.nodes
    ensures t.Valid() && t.nodes == {} && t.top == null && t.count == 0 && t.entries == map[]
    ensures forall i, j :: 0 <= i < j < |freed| ==> Before(freed[i].p, freed[j].p)
    ensures forall n :: n in freed <==> n in old(t.nodes) && old(n.info).Some?
  {
    t.DistinctPrefixes();
    ghost var wanted := set n | n in t.nodes && n.info.Some?;
    ghost var ahead := t.nodes;
    freed := [];
    var rn := t.Top();
    while rn != null
      invariant t.Valid() && t.nodes <= old(t.nodes) && Resetting(t, rn, wanted, freed)
      invariant rn != null ==> forall n <- t.nodes :: AtOrBefore(rn.p, n.p) ==> n in ahead
      decreases ahead
    {
      ghost var was := rn;
      rn, freed := ResetStep(t, rn, wanted, freed);
      BgpTable<T>.StillAhead(ahead, was, rn, t.nodes);
      ahead := ahead - {was};
    }
    UnheldIsEmpty(t);
  }

  // ---------- answers, and what has changed in them ----------

  datatype GateKind = Address4 | Interface | Address6 | Address6OnInterface | Unspecified

  /** One next hop of an answer; which of the addresses and the interface count depends on the kind. */
  datatype Gate = Gate(kind: GateKind, ipv4: nat, ipv6: nat, ifindex: nat)

  /** An answer about an address: whether and how it is reached, and what differs from the other cache. */
  datatype Answer = Answer(valid: bool, metric: nat, gates: seq<Gate>, changed: bool, metricChanged: bool)

  const UNREACHABLE := Answer(false, 0, [], false, false)

  predicate SameGate(a: Gate, b: Gate) {
    && a.kind == b.kind
    && match a.kind
       case Address4 => a.ipv4 == b.ipv4
       case Interface => a.ifindex == b.ifindex
       case Address6 => a.ipv6 == b.ipv6
       case Address6OnInterface => a.ipv6 == b.ipv6 && a.ifindex == b.ifindex
       case Unspecified => true
  }

  /** What of a next hop is used. */
  function Used(g: Gate): Gate {
    match g.kind
    case Address4 => Gate(g.kind, g.ipv4, 0, 0)
    case Interface => Gate(g.kind, 0, 0, g.ifindex)
    case Address6 => Gate(g.kind, 0, g.ipv6, 0)
    case Address6OnInterface => Gate(g.kind, 0, g.ipv6, g.ifindex)
    case Unspecified => Gate(g.kind, 0, 0, 0)
  }

  /** Next hops with the same used parts, field by field. */
  lemma UsedMeans(a: Gate, b: Gate)
    ensures Used(a) == Used(b) <==>
      && a.kind == b.kind
      && (a.kind == Address4 ==> a.ipv4 == b.ipv4)
      && (a.kind == Address6 || a.kind == Address6OnInterface ==> a.ipv6 == b.ipv6)
      && (a.kind == Interface || a.kind == Address6OnInterface ==> a.ifindex == b.ifindex)
  {
  }

  function AllUsed(gs: seq<Gate>): seq<Gate> {
    seq(|gs|, i requires 0 <= i < |gs| => Used(gs[i]))
  }

  /** Two answers differ exactly when the used parts of their next hops do. */
  method GatesChanged(a: seq<Gate>, b: seq<Gate>) returns (c: bool)
    ensures c <==> AllUsed(a) != AllUsed(b)
  {
    if |a| != |b| {
      return true;
    }
    for i := 0 to |a|
      invariant AllUsed(a)[..i] == AllUsed(b)[..i]
    {
      if !SameGate(a[i], b[i]) {
        assert AllUsed(a)[i] != AllUsed(b)[i];
        return true;
      }
    }
    return false;
  }

  /** An answer marked with what differs from an earlier one. */
  function Marked(new': Answer, was: Answer): Answer {
    new'.(changed := AllUsed(new'.gates) != AllUsed(was.gates),
          metricChanged := new'.metricChanged || new'.metric != was.metric)
  }

  /** Marks an answer against what the other cache holds for the address, leaving that cache as it is. */
  method Compare(other: BgpTable<Answer>, addr: Bits, pad: bool, bnc: Answer) returns (r: Answer)
    requires other.Valid()
    modifies other, other.nodes
    ensures other.Valid() && other.entries == old(other.entries) && other.nodes == old(other.nodes)
    ensures forall n <- other.nodes :: n.lock == old(n.lock)
    ensures r == if addr in old(other.entries) then Marked(bnc, old(other.entries)[addr]) else bnc
  {
    r := bnc;
    var rn := other.Lookup(addr, pad);
    if rn != null {
      assert old(other.Held(rn));
      var was := rn.info.value;
      var c := GatesChanged(bnc.gates, was.gates);
      r := r.(changed := c);
      if bnc.metric != was.metric {
        r := r.(metricChanged := true);
      }
      other.Unlock(rn);
    }
  }

  /** What is cached for an address that is not in the cache yet. */
  function Fresh(others: map<Bits, Answer>, addr: Bits, query: Option<Answer>, compare: bool): Answer {
    if query == None then UNREACHABLE
    else if compare && addr in others then Marked(query.value, others[addr])
    else query.value
  }

  /** Next hops that differ in number, or at some place in what they use. */
  ghost predicate GatesDiffer(a: seq<Gate>, b: seq<Gate>) {
    |a| != |b| || exists i :: 0 <= i < |a| && Used(a[i]) != Used(b[i])
  }

  /**
   * A new answer is the query's, and says what has changed: against the other cache, if asked and if that knows the
   * address, whether the next hops differ and whether the metric does.
   */
  lemma FreshMeans(others: map<Bits, Answer>, addr: Bits, query: Option<Answer>, compare: bool)
    ensures var r := Fresh(others, addr, query, compare);
      && (query == None ==> !r.valid && r.gates == [] && !r.changed && !r.metricChanged)
      && (query.Some? ==>
           r.valid == query.value.valid && r.metric == query.value.metric && r.gates == query.value.gates)
      && (query.Some? && compare && addr in others ==>
           && (r.changed <==> GatesDiffer(r.gates, others[addr].gates))
           && (r.metricChanged <==> query.value.metricChanged || r.metric != others[addr].metric))
      && (query.Some? && !(compare && addr in others) ==>
           r.changed == query.value.changed && r.metricChanged == query.value.metricChanged)
  {
    if query.Some? && compare && addr in others {
      var a, b := query.value.gates, others[addr].gates;
      if AllUsed(a) == AllUsed(b) {
        forall i | 0 <= i < |a| ensures Used(a[i]) == Used(b[i]) {
          assert AllUsed(a)[i] == AllUsed(b)[i];
        }
        assert |AllUsed(a)| == |AllUsed(b)|;
      } else if |a| == |b| {
        assert exists i :: 0 <= i < |a| && AllUsed(a)[i] != AllUsed(b)[i];
      }
    }
  }

  /**
   * The answer for addr: from the cache, else from the query, marked on demand with what differs from the other cache,
   * and then cached; a failed query is cached as unreachable.
   */
  method Lookup(t: BgpTable<Answer>, other: BgpTable<Answer>, addr: Bits, pad: bool, query: Option<Answer>,
                compare: bool)
    returns (bnc: Answer)
    requires t.Valid() && OneLockEach(t) && other.Valid() && other != t && t.nodes !! other.nodes
    modifies t, t.nodes, other, other.nodes
    ensures t.Valid() && OneLockEach(t) && fresh(t.nodes - old(t.nodes))
    ensures other.Valid() && other.entries == old(other.entries) && other.nodes == old(other.nodes)
    ensures forall n <- other.nodes :: n.lock == old(n.lock)
    ensures addr in old(t.entries) ==> bnc == old(t.entries)[addr] && t.entries == old(t.entries)
    ensures addr !in old(t.entries) ==>
      bnc == Fresh(old(other.entries), addr, query, compare) && t.entries == old(t.entries)[addr := bnc]
  {
    var rn := Seek(t, addr);
    if rn.info.Some? {
      bnc := rn.info.value;
    } else {
      bnc := Ask(other, addr, pad, query, compare);
      t.SetInfo(rn, bnc);
    }
  }

  /** The node for addr, held by its entry alone, or for the caller when there is none. */
  method Seek(t: BgpTable<Answer>, addr: Bits) returns (rn: Node<Answer>)
    requires t.Valid() && OneLockEach(t)
    modifies t, t.nodes
    ensures t.Valid() && t.entries == old(t.entries) && fresh(t.nodes - old(t.nodes))
    ensures rn in t.nodes && rn.p == addr && rn.lock == 1 && rn.info == BgpTable<Answer>.Get(t.entries, addr)
    ensures forall n <- t.nodes :: n != rn ==> n.lock == if n.info.Some? then 1 else 0
  {
    rn := t.NodeGet(addr);
    assert rn.info == BgpTable<Answer>.Get(t.entries, addr);
    if rn.info.Some? {
      t.Unlock(rn);
    }
  }

  method Ask(other: BgpTable<Answer>, addr: Bits, pad: bool, query: Option<Answer>, compare: bool) returns (bnc: Answer)
    requires other.Valid()
    modifies other, other.nodes
    ensures other.Valid() && other.entries == old(other.entries) && other.nodes == old(other.nodes)
    ensures forall n <- other.nodes :: n.lock == old(n.lock)
    ensures bnc == Fresh(old(other.entries), addr, query, compare)
  {
    if query == None {
      return UNREACHABLE;
    }
    bnc := query.value;
    if compare {
      bnc := Compare(other, addr, pad, bnc);
    }
  }
}

module Connected {
  import opened Wrappers
  import opened PrefixBytes
  import opened Prefixes
  import opened Table

  datatype Family = IPv4 | IPv6

  /** An address configured on an interface, with the length of its network. */
  datatype Ifc = Ifc(hasInterface: bool, loopback: bool, addr: Bytes, prefixLen: nat)

  datatype Op = Add(ifc: Ifc) | Delete(ifc: Ifc)

  function AddressSize(f: Family): nat {
    match f
    case IPv4 => 4
    case IPv6 => 16
  }

  /** An address of its family, with a length that it has bits for. */
  predicate Proper(f: Family, ifc: Ifc) {
    |ifc.addr| == AddressSize(f) && ifc.prefixLen <= 8 * |ifc.addr|
  }

  /** The network of an interface address: the address under its mask. */
  function Mask(ifc: Ifc): Bits {
    var b := BitsOf(ifc.addr);
    if ifc.prefixLen <= |b| then b[..ifc.prefixLen] else b
  }

  /** fe80::/10, on a prefix whose missing bits are zero. */
  predicate LinkLocal(p: Bits) {
    && |p| >= 9 && p[..9] == [true, true, true, true, true, true, true, false, true]
    && (|p| >= 10 ==> !p[9])
  }

  predicate NoneSet(p: Bits) {
    forall i :: 0 <= i < |p| ==> !p[i]
  }

  /** Networks that are never entered: the default IPv4 prefix, the unspecified and link-local IPv6 ones. */
  predicate Skipped(f: Family, p: Bits) {
    match f
    case IPv4 => p == []
    case IPv6 => NoneSet(p) || LinkLocal(p)
  }

  /** The prefix an operation counts for, if any. */
  function Target(f: Family, op: Op): Option<Bits> {
    if op.ifc.loopback || (op.Add? && !op.ifc.hasInterface) || Skipped(f, Mask(op.ifc)) then None
    else Some(Mask(op.ifc))
  }

  /** Additions minus deletions for one prefix, a deletion at zero counting for nothing. */
  function Balance(f: Family, ops: seq<Op>, p: Bits): nat {
    if ops == [] then 0 else
    var b := Balance(f, ops[..|ops| - 1], p);
    var op := ops[|ops| - 1];
    if Target(f, op) != Some(p) then b else if op.Add? then b + 1 else if b == 0 then 0 else b - 1
  }

  /** What one operation does to the reference counts. */
  function Apply(f: Family, e: map<Bits, nat>, op: Op): map<Bits, nat> {
    match Target(f, op)
    case None => e
    case Some(p) =>
      if op.Add? then e[p := if p in e then e[p] + 1 else 1]
      else if p !in e then e
      else if e[p] <= 1 then e - {p}
      else e[p := e[p] - 1]
  }

  /** The reference counts are exactly the balances of the operations so far, absent meaning zero. */
  ghost predicate Counts(f: Family, e: map<Bits, nat>, ops: seq<Op>) {
    forall p :: Balance(f, ops, p) == (if p in e then e[p] else 0) && (p in e ==> e[p] > 0)
  }

  /** Some network with a positive balance covers an address. */
  ghost predicate Covered(f: Family, addr: Bits, ops: seq<Op>) {
    exists p :: p <= addr && Balance(f, ops, p) > 0
  }

  lemma CountsStep(f: Family, e: map<Bits, nat>, ops: seq<Op>, op: Op)
    requires Counts(f, e, ops)
    ensures Counts(f, Apply(f, e, op), ops + [op])
  {
    assert (ops + [op])[..|ops|] == ops;
  }

  // ---------- the network of an interface address, on octets ----------

  /** 0xfe, and 0x80. */
  const FE: Byte := [true, true, true, true, true, true, true, false]
  const HIGH: Byte := [true, false, false, false, false, false, false, false]

  predicate AllZero(b: Bytes) {
    forall i :: 0 <= i < |b| ==> b[i] == Zeros(8)
  }

  lemma BitOf(b: Bytes, k: nat)
    requires k < 8 * |b|
    ensures BitsOf(b)[k] == b[k / 8][k % 8]
  {
    BitAt(b, k / 8, k % 8);
  }

  lemma ZeroOctets(b: Bytes)
    ensures AllZero(b) <==> NoneSet(BitsOf(b))
  {
    if AllZero(b) {
      BitsOfZeros(b);
    } else {
      var j :| 0 <= j < |b| && b[j] != Zeros(8);
      var m :| 0 <= m < 8 && b[j][m];
      BitAt(b, j, m);
    }
  }

  /** The network of an address that has nothing set behind it. */
  predicate NetworkIs(b: Bytes, p: Bits) {
    p <= BitsOf(b) && forall k :: |p| <= k < 8 * |b| ==> !BitsOf(b)[k]
  }

  /** Such an address is all zero exactly when its network is. */
  lemma UnspecifiedOctets(b: Bytes, p: Bits)
    requires NetworkIs(b, p)
    ensures AllZero(b) <==> NoneSet(p)
  {
    ZeroOctets(b);
    var w := BitsOf(b);
    assert forall i :: 0 <= i < |p| ==> p[i] == w[i];
    if NoneSet(p) {
      assert NoneSet(w);
    }
  }

  /** fe80::/10 bit by bit. */
  predicate LinkLocalBits(p: Bits, l: nat)
    requires l <= |p|
  {
    && l >= 9 && p[0] && p[1] && p[2] && p[3] && p[4] && p[5] && p[6] && !p[7] && p[8]
    && (l >= 10 ==> !p[9])
  }

  lemma LinkLocalIsBits(p: Bits)
    ensures LinkLocal(p) <==> LinkLocalBits(p, |p|)
  {
    if |p| >= 9 {
      assert p[..9] == [p[0], p[1], p[2], p[3], p[4], p[5], p[6], p[7], p[8]];
    }
  }

  lemma TestedOctets(a: Byte, b: Byte)
    ensures a == FE <==> a[0] && a[1] && a[2] && a[3] && a[4] && a[5] && a[6] && !a[7]
    ensures And(b, MaskBit(2)) == HIGH <==> b[0] && !b[1]
  {
    assert a == [a[0], a[1], a[2], a[3], a[4], a[5], a[6], a[7]];
    var x := And(b, MaskBit(2));
    assert x == [b[0], b[1], false, false, false, false, false, false];
  }

  lemma FirstBits(b: Bytes)
    requires |b| >= 2
    ensures forall k :: 0 <= k < 8 ==> b[0][k] == BitsOf(b)[k]
    ensures b[1][0] == BitsOf(b)[8] && b[1][1] == BitsOf(b)[9]
  {
    forall k | 0 <= k < 8 ensures b[0][k] == BitsOf(b)[k] {
      BitAt(b, 0, k);
    }
    BitAt(b, 1, 0);
    BitAt(b, 1, 1);
  }

  /** And it is link-local exactly when it starts with 0xfe and then the bits 10. */
  lemma LinkLocalOctets(b: Bytes, p: Bits)
    requires |b| >= 2 && NetworkIs(b, p)
    ensures LinkLocal(p) <==> b[0] == FE && And(b[1], MaskBit(2)) == HIGH
  {
    var w := BitsOf(b);
    FirstBits(b);
    TestedOctets(b[0], b[1]);
    LinkLocalIsBits(p);
    assert forall k :: 0 <= k < 10 ==> w[k] == (k < |p| && p[k]);
  }

  /** The network an interface address stands for, unless it is one that is skipped. */
  method NetworkOf(f: Family, ifc: Ifc) returns (r: Option<Bits>)
    requires Proper(f, ifc)
    ensures r == if Skipped(f, Mask(ifc)) then None else Some(Mask(ifc))
  {
    var a := new Byte[|ifc.addr|](i requires 0 <= i < |ifc.addr| => ifc.addr[i]);
    assert a[..] == ifc.addr;
    ApplyMask(a, ifc.prefixLen);
    var b, p := a[..], BitsOf(a[..])[..ifc.prefixLen];
    assert p == Mask(ifc);
    UnspecifiedOctets(b, p);
    match f {
      case IPv4 =>
        if AllZero(b) && ifc.prefixLen == 0 {
          return None;
        }
      case IPv6 =>
        LinkLocalOctets(b, p);
        if AllZero(b) || (b[0] == FE && And(b[1], MaskBit(2)) == HIGH) {
          return None;
        }
    }
    r := Some(p);
  }

  // ---------- what is on link, in terms of the addresses ----------

  /** The first l bits of an interface address are those of another address. */
  predicate Agrees(a: Bytes, addr: Bits, l: nat) {
    l <= 8 * |a| && l <= |addr| && forall k :: 0 <= k < l ==> a[k / 8][k % 8] == addr[k]
  }

  /** Networks that are not entered: in IPv4 those of length 0, in IPv6 those with nothing but zeros, and fe80::/10. */
  predicate Unused(f: Family, addr: Bits, l: nat)
    requires l <= |addr|
  {
    match f
    case IPv4 => l == 0
    case IPv6 =>
      || (forall k :: 0 <= k < l ==> !addr[k])
      || LinkLocalBits(addr, l)
  }

  /** The operation is about an address of length l that agrees with addr so far, on an interface that counts. */
  predicate Concerns(f: Family, op: Op, addr: Bits, l: nat)
    requires l <= |addr|
  {
    && !op.ifc.loopback && (op.Add? ==> op.ifc.hasInterface)
    && op.ifc.prefixLen == l && Agrees(op.ifc.addr, addr, l) && !Unused(f, addr, l)
  }

  lemma TargetConcerns(f: Family, op: Op, addr: Bits, l: nat)
    requires Proper(f, op.ifc) && l <= |addr|
    ensures Target(f, op) == Some(addr[..l]) <==> Concerns(f, op, addr, l)
  {
    var p, b := addr[..l], BitsOf(op.ifc.addr);
    forall k | 0 <= k < |b| ensures b[k] == op.ifc.addr[k / 8][k % 8] {
      BitOf(op.ifc.addr, k);
    }
    assert Mask(op.ifc) == p <==> op.ifc.prefixLen == l && Agrees(op.ifc.addr, addr, l) by {
      if op.ifc.prefixLen == l && Agrees(op.ifc.addr, addr, l) {
        assert b[..l] == p;
      }
      if Mask(op.ifc) == p {
        assert |b[..op.ifc.prefixLen]| == l;
        forall k | 0 <= k < l ensures op.ifc.addr[k / 8][k % 8] == addr[k] {
          assert b[..l][k] == p[k];
        }
      }
    }
    SkippedUnused(f, addr, l);
  }

  lemma SkippedUnused(f: Family, addr: Bits, l: nat)
    requires l <= |addr|
    ensures Skipped(f, addr[..l]) <==> Unused(f, addr, l)
  {
    var p := addr[..l];
    assert forall k :: 0 <= k < l ==> p[k] == addr[k];
    if forall k :: 0 <= k < l ==> !addr[k] {
      assert NoneSet(p);
    }
    LinkLocalIsBits(p);
  }

  /** Additions less deletions of such addresses. */
  function Net(f: Family, ops: seq<Op>, addr: Bits, l: nat): int
    requires l <= |addr|
  {
    if ops == [] then 0 else
    var op := ops[|ops| - 1];
    Net(f, ops[..|ops| - 1], addr, l) + if !Concerns(f, op, addr, l) then 0 else if op.Add? then 1 else -1
  }

  /** Since some point in time, additions have outweighed deletions. */
  ghost predicate Outweighs(f: Family, ops: seq<Op>, addr: Bits, l: nat)
    requires l <= |addr|
  {
    exists i :: 0 <= i <= |ops| && Net(f, ops[i..], addr, l) > 0
  }

  lemma NetSuffix(f: Family, ops: seq<Op>, addr: Bits, l: nat, i: nat)
    requires l <= |addr| && i < |ops|
    ensures var n := |ops| - 1;
      Net(f, ops[i..], addr, l) == Net(f, ops[..n][i..], addr, l) +
        if !Concerns(f, ops[n], addr, l) then 0 else if ops[n].Add? then 1 else -1
  {
    var n := |ops| - 1;
    assert ops[i..][..n - i] == ops[..n][i..] && ops[i..][n - i] == ops[n];
  }

  /** The balance is the best that any stretch of operations up to now comes to. */
  lemma {:induction false} BalanceIsBest(f: Family, ops: seq<Op>, addr: Bits, l: nat) returns (i: nat)
    requires l <= |addr| && forall k :: 0 <= k < |ops| ==> Proper(f, ops[k].ifc)
    ensures i <= |ops| && Balance(f, ops, addr[..l]) == Net(f, ops[i..], addr, l)
    ensures forall j :: 0 <= j <= |ops| ==> Net(f, ops[j..], addr, l) <= Balance(f, ops, addr[..l])
  {
    if ops == [] {
      i := 0;
      assert ops[0..] == [];
    } else {
      var n := |ops| - 1;
      TargetConcerns(f, ops[n], addr, l);
      i := BalanceIsBest(f, ops[..n], addr, l);
      forall j | 0 <= j <= |ops| ensures Net(f, ops[j..], addr, l) <= Balance(f, ops, addr[..l]) {
        if j < |ops| {
          NetSuffix(f, ops, addr, l, j);
        } else {
          assert ops[j..] == [];
        }
      }
      NetSuffix(f, ops, addr, l, i);
      if Concerns(f, ops[n], addr, l) && ops[n].Delete? && Balance(f, ops[..n], addr[..l]) == 0 {
        i := |ops|;
        assert ops[i..] == [];
      }
    }
  }

  /**
   * An address is on link exactly when for some length additions of addresses agreeing with it that far have, since
   * some point in time, outweighed deletions of such addresses.
   */
  lemma CoveredMeans(f: Family, addr: Bits, ops: seq<Op>)
    requires forall k :: 0 <= k < |ops| ==> Proper(f, ops[k].ifc)
    ensures Covered(f, addr, ops) <==> exists l :: 0 <= l <= |addr| && Outweighs(f, ops, addr, l)
  {
    forall l | 0 <= l <= |addr| ensures Balance(f, ops, addr[..l]) > 0 <==> Outweighs(f, ops, addr, l) {
      var i := BalanceIsBest(f, ops, addr, l);
      assert Balance(f, ops, addr[..l]) > 0 ==> Net(f, ops[i..], addr, l) > 0;
    }
    if Covered(f, addr, ops) {
      var p :| p <= addr && Balance(f, ops, p) > 0;
      assert addr[..|p|] == p;
    }
    if l :| 0 <= l <= |addr| && Outweighs(f, ops, addr, l) {
      assert addr[..l] <= addr;
    }
  }

  class ConnectedTable {
    const family: Family
    const table: BgpTable<nat>

    constructor (f: Family)
      ensures family == f && fresh(table) && fresh(table.nodes) && Valid() && table.entries == map[]
    {
      family := f;
      table := new BgpTable<nat>();
    }

    /** Each network's reference count is positive and is its node's lock count; glue is unheld. */
    ghost predicate Valid()
      reads this, table, table.nodes
    {
      && table.Valid()
      && (forall n <- table.nodes :: n.lock == if n.info.Some? then n.info.value else 0)
    }

    method AddConnected(ifc: Ifc)
      requires Valid() && Proper(family, ifc)
      modifies table, table.nodes
      ensures Valid() && fresh(table.nodes - old(table.nodes))
      ensures table.entries == Apply(family, old(table.entries), Add(ifc))
    {
      if !ifc.hasInterface || ifc.loopback {
        return;
      }
      var p := NetworkOf(family, ifc);
      if p == None {
        return;
      }
      var rn := table.NodeGet(p.value);
      assert rn.info == BgpTable<nat>.Get(table.entries, p.value);
      if rn.info.Some? {
        table.SetInfo(rn, rn.info.value + 1);
      } else {
        table.SetInfo(rn, 1);
      }
    }

    method DeleteConnected(ifc: Ifc, pad: bool)
      requires Valid() && ifc.hasInterface && Proper(family, ifc)
      modifies table, table.nodes
      ensures Valid() && table.nodes <= old(table.nodes)
      ensures table.entries == Apply(family, old(table.entries), Delete(ifc))
    {
      if ifc.loopback {
        return;
      }
      var p := NetworkOf(family, ifc);
      if p == None {
        return;
      }
      var rn := table.Lookup(p.value, pad);
      if rn == null {
        return;
      }
      assert old(table.Held(rn));
      DropReference(rn);
    }

    /** Gives up the lookup's hold and one reference, with the network itself when that was the last. */
    method DropReference(rn: Node<nat>)
      requires table.Valid() && rn in table.nodes && rn.info.Some? && rn.info.value > 0 && rn.lock == rn.info.value + 1
      modifies table, table.nodes
      ensures table.Valid() && table.nodes <= old(table.nodes)
      ensures rn.lock == old(rn.lock) - 2 &&
        forall n <- table.nodes :: n != rn ==> n.lock == old(n.lock) && n.info == old(n.info)
      ensures rn.info == if rn.lock == 0 then None else Some(rn.lock)
      ensures table.entries == if rn.lock == 0 then old(table.entries) - {rn.p} else old(table.entries)[rn.p := rn.lock]
    {
      var refcnt := rn.info.value - 1;
      if refcnt == 0 {
        table.ClearInfo(rn);
      } else {
        table.SetInfo(rn, refcnt);
      }
      table.Unlock(rn);
      table.Unlock(rn);
    }

    /** Any sequence of interface events leaves every network with its running balance, as payload and as lock. */
    method Run(ops: seq<Op>, pad: bool)
      requires Valid() && table.entries == map[]
      requires forall i :: 0 <= i < |ops| ==> Proper(family, ops[i].ifc) && (ops[i].Delete? ==> ops[i].ifc.hasInterface)
      modifies table, table.nodes
      ensures Valid() && Counts(family, table.entries, ops)
    {
      for i := 0 to |ops|
        invariant Valid() && fresh(table.nodes - old(table.nodes))
        invariant Counts(family, table.entries, ops[..i])
      {
        CountsStep(family, table.entries, ops[..i], ops[i]);
        assert ops[..i + 1] == ops[..i] + [ops[i]];
        match ops[i]
        case Add(ifc) => AddConnected(ifc);
        case Delete(ifc) => DeleteConnected(ifc, pad);
      }
      assert ops[..|ops|] == ops;
    }

    /** An eBGP next hop is accepted: IPv4 when covered, IPv6 also when link-local or given with a link-local one. */
    ghost predicate Accepted(nexthop: Bits, octets: nat, ops: seq<Op>) {
      match family
      case IPv4 => Covered(family, nexthop, ops)
      case IPv6 => octets == 32 || (octets == 16 && (LinkLocal(nexthop) || Covered(family, nexthop, ops)))
    }

    /** The on-link test for an eBGP next hop of a given length, which only IPv6 looks at. */
    method CheckEbgp(lookupUp: bool, nexthop: Bits, octets: nat, pad: bool, ghost ops: seq<Op>) returns (ok: bool)
      requires Valid() && Counts(family, table.entries, ops)
      modifies table, table.nodes
      ensures Valid() && table.entries == old(table.entries) && table.nodes == old(table.nodes)
      ensures !lookupUp ==> ok
      ensures lookupUp ==> (ok <==> Accepted(nexthop, octets, ops))
    {
      if !lookupUp {
        return true;
      }
      match family {
        case IPv4 => {
          ok := OnNetwork(nexthop, pad, ops);
        }
        case IPv6 => {
          if octets == 32 {
            return true;
          } else if octets == 16 {
            if LinkLocal(nexthop) {
              return true;
            }
            ok := OnNetwork(nexthop, pad, ops);
          } else {
            ok := false;
          }
        }
      }
    }

    /** Some connected network covers an address. */
    method OnNetwork(nexthop: Bits, pad: bool, ghost ops: seq<Op>) returns (ok: bool)
      requires Valid() && Counts(family, table.entries, ops)
      modifies table, table.nodes
      ensures Valid() && table.entries == old(table.entries) && table.nodes == old(table.nodes)
      ensures ok <==> Covered(family, nexthop, ops)
    {
      var rn := table.Match(nexthop, pad);
      if rn != null {
        var p := rn.p;
        assert old(table.Held(rn));
        assert rn.info == BgpTable<nat>.Get(table.entries, p);
        assert p <= nexthop && Balance(family, ops, p) > 0;
        table.Unlock(rn);
        return true;
      }
      return false;
    }
  }
}
