/** One peer's Adj-RIB-Out: what is to be announced, queued by shared attribute, and what was sent. */
module AdjOut {
  import opened Octets
  import opened UpdateWire
  import opened Wrappers

  /** The identity of an interned attribute set. */
  type Attr = nat

  function Get(m: map<Prefix, Attr>, p: Prefix): Option<Attr> {
    if p in m then Some(m[p]) else None
  }

  /** The adjacency of one prefix: the attribute last sent, and what is pending. */
  class Adj {
    const rn: Prefix
    var attr: Option<Attr>
    var adv: Adv?

    constructor (p: Prefix)
      ensures rn == p && attr == None && adv == null
    {
      rn := p;
      attr := None;
      adv := null;
    }
  }

  /** A pending advertisement; one without a shared attribute is a withdrawal. */
  class Adv {
    const rn: Prefix
    const adj: Adj
    const baa: Baa?

    constructor (j: Adj, b: Baa?)
      ensures rn == j.rn && adj == j && baa == b
    {
      rn := j.rn;
      adj := j;
      baa := b;
    }
  }

  /** An attribute shared by the advertisements on its list. */
  class Baa {
    const attr: Attr
    var refcnt: nat
    var advs: seq<Adv>

    constructor (a: Attr)
      ensures attr == a && refcnt == 0 && advs == []
    {
      attr := a;
      refcnt := 0;
      advs := [];
    }
  }

  predicate NoDup(s: seq<Adv>) {
    s == [] || (s[0] !in s[1..] && NoDup(s[1..]))
  }

  /** The list after unlinking one element; unchanged when it is not there. */
  function Without(s: seq<Adv>, x: Adv): (r: seq<Adv>)
    ensures (x !in s ==> r == s) && forall y :: y in r ==> y in s
  {
    if s == [] then [] else if s[0] == x then s[1..] else [s[0]] + Without(s[1..], x)
  }

  lemma {:induction false} WithoutMembers(s: seq<Adv>, x: Adv)
    requires NoDup(s)
    ensures NoDup(Without(s, x)) && x !in Without(s, x)
    ensures forall y: Adv :: y in Without(s, x) <==> y in s && y != x
    ensures |Without(s, x)| == if x in s then |s| - 1 else |s|
  {
    if s != [] && s[0] != x {
      WithoutMembers(s[1..], x);
      var r := Without(s[1..], x);
      assert ([s[0]] + r)[1..] == r;
      assert s == [s[0]] + s[1..];
    }
  }

  lemma {:induction false} AppendFresh(s: seq<Adv>, x: Adv)
    requires NoDup(s) && x !in s
    ensures NoDup(s + [x])
  {
    if s == [] {
      assert (s + [x])[1..] == [];
    } else {
      AppendFresh(s[1..], x);
      assert (s + [x])[1..] == s[1..] + [x];
    }
  }

  lemma {:induction false} ListSize(s: seq<Adv>)
    requires NoDup(s)
    ensures |set v | v in s| == |s|
  {
    if s != [] {
      ListSize(s[1..]);
      assert (set v | v in s) == {s[0]} + set v | v in s[1..];
    }
  }

  lemma PushFresh(s: seq<Adv>, x: Adv)
    requires NoDup(s) && x !in s
    ensures NoDup([x] + s)
  {
    assert ([x] + s)[1..] == s;
  }

  datatype Message =
    | Update(attr: Attr, nlri: seq<Prefix>)
    | Withdraw(routes: seq<Prefix>)

  /** A peer's table after an UPDATE announcing prefixes with one attribute set. */
  function Learn(table: map<Prefix, Attr>, a: Attr, ps: seq<Prefix>): map<Prefix, Attr> {
    if ps == [] then table else Learn(table, a, ps[..|ps| - 1])[ps[|ps| - 1] := a]
  }

  /** A peer's table after an UPDATE withdrawing prefixes. */
  function Forget(table: map<Prefix, Attr>, ps: seq<Prefix>): map<Prefix, Attr> {
    if ps == [] then table else Forget(table, ps[..|ps| - 1]) - {ps[|ps| - 1]}
  }

  function Receive(table: map<Prefix, Attr>, m: Message): map<Prefix, Attr> {
    match m
    case Update(a, ps) => Learn(table, a, ps)
    case Withdraw(ps) => Forget(table, ps)
  }

  function Replay(table: map<Prefix, Attr>, ms: seq<Message>): map<Prefix, Attr> {
    if ms == [] then table else Receive(Replay(table, ms[..|ms| - 1]), ms[|ms| - 1])
  }

  lemma ReplaySnoc(table: map<Prefix, Attr>, ms: seq<Message>, m: Message)
    ensures Replay(table, ms + [m]) == Receive(Replay(table, ms), m)
  {
    assert (ms + [m])[..|ms|] == ms;
  }

  /** A request, one message from one of the queues, or the loss of a prefix with its session. */
  datatype Op =
    | Announcing(p: Prefix, a: Attr)
    | Withdrawing(p: Prefix)
    | SendingUpdate
    | SendingWithdraw
    | Clearing(p: Prefix)

  datatype Event = Sent(m: Message) | Cleared(p: Prefix)

  /** What a step does to the routes wanted. */
  function Intent(table: map<Prefix, Attr>, op: Op): map<Prefix, Attr> {
    match op
    case Announcing(p, a) => table[p := a]
    case Withdrawing(p) => table - {p}
    case Clearing(p) => table - {p}
    case _ => table
  }

  function Intents(table: map<Prefix, Attr>, ops: seq<Op>): map<Prefix, Attr> {
    if ops == [] then table else Intent(Intents(table, ops[..|ops| - 1]), ops[|ops| - 1])
  }

  /** How long the queues can be at most. */
  datatype Load = Load(updates: nat, withdraws: nat)

  function Pred(n: nat): nat {
    if n == 0 then 0 else n - 1
  }

  /** A request queues one more at most, and a message takes at least one off its queue. */
  function Loaded(l: Load, op: Op): Load {
    match op
    case Announcing(_, _) => l.(updates := l.updates + 1)
    case Withdrawing(_) => l.(withdraws := l.withdraws + 1)
    case SendingUpdate => l.(updates := Pred(l.updates))
    case SendingWithdraw => l.(withdraws := Pred(l.withdraws))
    case Clearing(_) => l
  }

  function Loads(l: Load, ops: seq<Op>): Load {
    if ops == [] then l else Loaded(Loads(l, ops[..|ops| - 1]), ops[|ops| - 1])
  }

  /** The prefixes cleared, in order. */
  function Clearings(ops: seq<Op>): seq<Prefix> {
    if ops == [] then [] else
    var op := ops[|ops| - 1];
    Clearings(ops[..|ops| - 1]) + if op.Clearing? then [op.p] else []
  }

  /** The prefixes the peer saw cleared, in order. */
  function Clears(log: seq<Event>): seq<Prefix> {
    if log == [] then [] else
    var e := log[|log| - 1];
    Clears(log[..|log| - 1]) + if e.Cleared? then [e.p] else []
  }

  lemma {:induction false} NothingCleared(ops: seq<Op>)
    requires forall i :: 0 <= i < |ops| ==> !ops[i].Clearing?
    ensures Clearings(ops) == []
  {
    if ops != [] {
      NothingCleared(ops[..|ops| - 1]);
    }
  }

  lemma {:induction false} NothingLost(table: map<Prefix, Attr>, log: seq<Event>)
    requires Clears(log) == []
    ensures Losses(table, log) == 0
  {
    if log != [] {
      NothingLost(table, log[..|log| - 1]);
    }
  }

  function See(table: map<Prefix, Attr>, e: Event): map<Prefix, Attr> {
    match e
    case Sent(m) => Receive(table, m)
    case Cleared(p) => table - {p}
  }

  /** What the peer holds after messages and lost sessions. */
  function Observe(table: map<Prefix, Attr>, log: seq<Event>): map<Prefix, Attr> {
    if log == [] then table else
    See(Observe(table, log[..|log| - 1]), log[|log| - 1])
  }

  /** How many routes the peer held when they were cleared. */
  function Losses(table: map<Prefix, Attr>, log: seq<Event>): nat {
    if log == [] then 0 else
    var e := log[|log| - 1];
    Losses(table, log[..|log| - 1]) + if e.Cleared? && e.p in Observe(table, log[..|log| - 1]) then 1 else 0
  }

  /** The log of one step: at most one event. */
  lemma ObserveOne(table: map<Prefix, Attr>, e: Event)
    ensures Observe(table, [e]) == See(table, e)
    ensures Losses(table, [e]) == if e.Cleared? && e.p in table then 1 else 0
    ensures Clears([e]) == if e.Cleared? then [e.p] else []
  {
    assert [e][..0] == [];
  }

  /** The routes wanted, the peer's table, the routes cleared while held, and the lengths of the queues. */
  datatype World = World(desired: map<Prefix, Attr>, sent: map<Prefix, Attr>, lost: nat, queued: Load)

  /**
   * What the peer sees of a step: nothing of a request, a clearing as it is, and of a send one message whenever one is
   * queued, announcing only routes wanted as they are wanted, or withdrawing only routes held and no longer wanted.
   */
  ghost predicate Sees(op: Op, es: seq<Event>, w: World) {
    match op
    case SendingUpdate =>
      if w.queued.updates == 0 then es == [] else
      && |es| == 1 && es[0].Sent? && es[0].m.Update? && es[0].m.nlri != []
      && forall p :: p in es[0].m.nlri ==> Get(w.desired, p) == Some(es[0].m.attr)
    case SendingWithdraw =>
      if w.queued.withdraws == 0 then es == [] else
      && |es| == 1 && es[0].Sent? && es[0].m.Withdraw? && es[0].m.routes != []
      && forall p :: p in es[0].m.routes ==> p in w.sent && p !in w.desired
    case Clearing(p) => es == [Cleared(p)]
    case _ => es == []
  }

  /** One step, completely told by its operation and what the peer sees of it. */
  ghost predicate Stepped(op: Op, es: seq<Event>, w: World, w': World) {
    && Sees(op, es, w)
    && w'.desired == Intent(w.desired, op)
    && w'.sent == Observe(w.sent, es)
    && w'.lost == w.lost + Losses(w.sent, es)
    && w'.queued.updates <= Loaded(w.queued, op).updates && w'.queued.withdraws <= Loaded(w.queued, op).withdraws
  }

  /** A run: its operations one after the other, with what the peer sees of each. */
  ghost predicate Ran(ops: seq<Op>, logs: seq<seq<Event>>, w: World, w': World)
    decreases |ops|
  {
    && |logs| == |ops|
    && if ops == [] then w == w' else
       var n := |ops| - 1;
       exists m :: Ran(ops[..n], logs[..n], w, m) && Stepped(ops[n], logs[n], m, w')
  }

  lemma RanSnoc(ops: seq<Op>, i: nat, logs: seq<seq<Event>>, es: seq<Event>, w: World, m: World, w': World)
    requires i < |ops| && Ran(ops[..i], logs, w, m) && Stepped(ops[i], es, m, w')
    ensures Ran(ops[..i + 1], logs + [es], w, w')
  {
    assert ops[..i + 1][..i] == ops[..i] && (logs + [es])[..i] == logs;
  }

  function Flat(logs: seq<seq<Event>>): seq<Event> {
    if logs == [] then [] else Flat(logs[..|logs| - 1]) + logs[|logs| - 1]
  }

  lemma StepClears(op: Op, es: seq<Event>, w: World)
    requires Sees(op, es, w)
    ensures |es| <= 1 && Clears(es) == if op.Clearing? then [op.p] else []
  {
    if es != [] {
      assert es == [es[0]];
      ObserveOne(w.sent, es[0]);
    }
  }

  /**
   * What a run comes to: the routes wanted are those the requests spell out, the peer's table is the replay of what it
   * saw, exactly the clearings were seen as such, and the queues are as long as the requests less the sends at most.
   */
  lemma {:induction false} RanMeans(ops: seq<Op>, logs: seq<seq<Event>>, w: World, w': World)
    requires Ran(ops, logs, w, w')
    ensures w'.desired == Intents(w.desired, ops) && w'.sent == Observe(w.sent, Flat(logs))
    ensures w'.lost == w.lost + Losses(w.sent, Flat(logs)) && Clears(Flat(logs)) == Clearings(ops)
    ensures w'.queued.updates <= Loads(w.queued, ops).updates && w'.queued.withdraws <= Loads(w.queued, ops).withdraws
    decreases |ops|
  {
    if ops != [] {
      var n := |ops| - 1;
      var m :| Ran(ops[..n], logs[..n], w, m) && Stepped(ops[n], logs[n], m, w');
      RanMeans(ops[..n], logs[..n], w, m);
      StepClears(ops[n], logs[n], m);
      LogStep(w.sent, Flat(logs[..n]), logs[n]);
    }
  }

  lemma LogStep(table: map<Prefix, Attr>, log: seq<Event>, es: seq<Event>)
    requires |es| <= 1
    ensures Observe(table, log + es) == Observe(Observe(table, log), es)
    ensures Losses(table, log + es) == Losses(table, log) + Losses(Observe(table, log), es)
    ensures Clears(log + es) == Clears(log) + Clears(es)
  {
    if es == [] {
      assert log + es == log;
    } else {
      assert es == [es[0]];
      ObserveSnoc(table, log, es[0]);
    }
  }

  lemma ObserveSnoc(table: map<Prefix, Attr>, log: seq<Event>, e: Event)
    ensures Observe(table, log + [e]) == Observe(Observe(table, log), [e])
    ensures Losses(table, log + [e]) == Losses(table, log) + Losses(Observe(table, log), [e])
    ensures Clears(log + [e]) == Clears(log) + Clears([e])
  {
    assert (log + [e])[..|log|] == log && [e][..0] == [];
  }

  const PACKET_SIZE := 4096

  /** The octets of encoded prefixes. */
  function NlriSize(ps: seq<Prefix>): nat {
    |EncPrefixes(ps)|
  }

  /** The octets of an UPDATE announcing prefixes with an attribute set of a given encoded length. */
  function Used(attrLen: nat, ps: seq<Prefix>): nat {
    if ps == [] then 0 else HEADER_SIZE + 4 + attrLen + NlriSize(ps)
  }

  /** An attribute set of a given encoded length leaves room for the prefix. */
  predicate Fits(attrLen: nat, p: Prefix) {
    Used(attrLen, [p]) <= PACKET_SIZE
  }

  lemma UsedOne(n: nat, p: Prefix)
    ensures Used(n, [p]) == HEADER_SIZE + 4 + n + 1 + PSize(|p|)
  {
    NlriSnoc([], p);
    assert [] + [p] == [p];
  }

  lemma UsedSnoc(n: nat, ps: seq<Prefix>, p: Prefix)
    ensures Used(n, ps + [p]) == (if ps == [] then HEADER_SIZE + 4 + n else Used(n, ps)) + 1 + PSize(|p|)
    ensures Used(n, ps + [p]) <= PACKET_SIZE ==> Fits(n, p)
  {
    NlriSnoc(ps, p);
    UsedOne(n, p);
  }

  // ---------- messages as octets ----------

  /** The fields of a message, for a given encoding of attribute sets. */
  function Fields(m: Message, enc: Attr -> seq<Octet>): Parts {
    match m
    case Update(a, ps) => Parts([], enc(a), EncPrefixes(ps))
    case Withdraw(ps) => Parts(EncPrefixes(ps), [], [])
  }

  /** The sizes that are kept below the limit are those of the packets. */
  lemma SizesExact(m: Message, enc: Attr -> seq<Octet>)
    ensures m.Update? && m.nlri != [] ==> PacketSize(Fields(m, enc)) == Used(|enc(m.attr)|, m.nlri)
    ensures m.Withdraw? ==> PacketSize(Fields(m, enc)) == HEADER_SIZE + 2 + NlriSize(m.routes) + 2
  {
  }

  function Routes(m: Message): seq<Prefix> {
    match m
    case Update(_, ps) => ps
    case Withdraw(ps) => ps
  }

  /** The message cut off after k prefixes. */
  function FirstRoutes(m: Message, k: nat): Message
    requires k <= |Routes(m)|
  {
    match m
    case Update(a, ps) => Update(a, ps[..k])
    case Withdraw(ps) => Withdraw(ps[..k])
  }

  /** A table after the fields of a message are acted upon, the attributes being those of one attribute set. */
  function Digest(table: map<Prefix, Attr>, u: Parts, a: Attr): map<Prefix, Attr> {
    Learn(Forget(table, TakenFrom(u.withdrawn).prefixes), a, TakenFrom(u.nlri).prefixes)
  }

  /** A peer that takes the octets of a message apart finds the attribute set and exactly the prefixes of it. */
  lemma MessageRead(m: Message, enc: Attr -> seq<Octet>)
    requires PacketSize(Fields(m, enc)) <= PACKET_SIZE
    ensures ReadBody(Packet(Fields(m, enc))[HEADER_SIZE..]) == Some(Fields(m, enc))
    ensures var u := Fields(m, enc);
      && Sane(u.withdrawn) && Sane(u.nlri)
      && Listed(if m.Update? then u.nlri else u.withdrawn) == Routes(m)
  {
    PrefixesRead(Routes(m));
    PacketRead(Fields(m, enc));
  }

  /** Its table becomes what the message says up to the first multicast prefix, hence all of it when there is none. */
  lemma MessageDigested(m: Message, enc: Attr -> seq<Octet>, table: map<Prefix, Attr>, a: Attr)
    requires m.Update? ==> a == m.attr
    ensures var k := FirstMulticast(Routes(m));
      && Digest(table, Fields(m, enc), a) == Receive(table, FirstRoutes(m, k))
      && (k == |Routes(m)| ==> FirstRoutes(m, k) == m)
  {
    var ps := Routes(m);
    PrefixesTaken(ps);
    assert ps[..|ps|] == ps;
    assert TakenFrom([]).prefixes == [];
  }

  /** Every route of a table fits a packet beside its attribute set. */
  ghost predicate Fitting(table: map<Prefix, Attr>, attrLen: Attr -> nat) {
    forall p :: p in table ==> Fits(attrLen(table[p]), p)
  }

  predicate FitOp(op: Op, attrLen: Attr -> nat) {
    op.Announcing? ==> Fits(attrLen(op.a), op.p)
  }

  lemma FittingIntent(table: map<Prefix, Attr>, op: Op, attrLen: Attr -> nat)
    requires Fitting(table, attrLen) && FitOp(op, attrLen)
    ensures Fitting(Intent(table, op), attrLen)
  {
  }

  /** What becomes of building a message: nothing was queued, the packet overflows and all aborts, or it is built. */
  datatype Built = Nothing | Aborted | Built(m: Message)

  lemma NlriSnoc(ps: seq<Prefix>, p: Prefix)
    ensures NlriSize(ps + [p]) == NlriSize(ps) + 1 + PSize(|p|)
  {
    EncSnoc(ps, p);
  }

  lemma LearnSnoc(table: map<Prefix, Attr>, a: Attr, ps: seq<Prefix>, p: Prefix)
    ensures Learn(table, a, ps + [p]) == Learn(table, a, ps)[p := a]
  {
    assert (ps + [p])[..|ps|] == ps;
  }

  lemma ForgetSnoc(table: map<Prefix, Attr>, ps: seq<Prefix>, p: Prefix)
    ensures Forget(table, ps + [p]) == Forget(table, ps) - {p}
  {
    assert (ps + [p])[..|ps|] == ps;
  }

  lemma {:induction false} ForgetSubset(table: map<Prefix, Attr>, ps: seq<Prefix>)
    ensures Forget(table, ps).Keys <= table.Keys
  {
    if ps != [] {
      ForgetSubset(table, ps[..|ps| - 1]);
    }
  }

  class Peer {
    var adjOut: map<Prefix, Adj>
    var hash: map<Attr, Baa>
    var update: seq<Adv>
    var withdraw: seq<Adv>
    var scount: nat

    ghost var adjs: set<Adj>
    ghost var advs: set<Adv>
    ghost var baas: set<Baa>
    /** The routes the caller last asked for. */
    ghost var desired: map<Prefix, Attr>
    /** The routes the peer holds after the messages sent to it. */
    ghost var sent: map<Prefix, Attr>
    /** How many sent routes were cleared without being counted off. */
    ghost var leaked: nat

    static function Wanted(j: Adj): Option<Attr>
      reads j
    {
      if j.adv == null then j.attr else if j.adv.baa == null then None else Some(j.adv.baa.attr)
    }

    ghost predicate AdjLink(j: Adj)
      reads this`adjOut, this`sent, this`advs, j
    {
      && j.rn in adjOut && adjOut[j.rn] == j
      && j.attr == Get(sent, j.rn)
      && (j.adv != null ==> j.adv in advs && j.adv.adj == j)
    }

    ghost predicate AdvLink(v: Adv)
      reads this`update, this`withdraw, this`adjs, this`baas, adjs, baas
    {
      && v.adj in adjs && v.adj.adv == v && v.rn == v.adj.rn
      && (v in update <==> v.baa != null)
      && (v in withdraw <==> v.baa == null)
      && (v.baa != null ==> v.baa in baas && v in v.baa.advs)
    }

    ghost predicate BaaLink(b: Baa)
      reads this`hash, this`advs, b
    {
      && b.attr in hash && hash[b.attr] == b
      && b.refcnt == |b.advs| > 0
      && NoDup(b.advs)
      && forall v :: v in b.advs ==> v in advs && v.baa == b
    }

    ghost predicate Queues()
      reads this`update, this`withdraw, this`advs, this`adjOut, this`adjs, this`hash, this`baas, this`sent, this`desired
    {
      && NoDup(update) && NoDup(withdraw)
      && (forall v :: v in update ==> v in advs)
      && (forall v :: v in withdraw ==> v in advs)
      && (forall p :: p in adjOut ==> adjOut[p] in adjs && adjOut[p].rn == p)
      && (forall a :: a in hash ==> hash[a] in baas && hash[a].attr == a)
      && sent.Keys <= adjOut.Keys && desired.Keys <= adjOut.Keys
    }

    /** What an adjacency holds or has pending is what is desired for its prefix. */
    ghost predicate Settled(j: Adj)
      reads this`desired, j
    {
      && (j.adv == null || j.adv.baa == null ==> j.attr.Some?)
      && Wanted(j) == Get(desired, j.rn)
    }

    /** Every link agrees, and every adjacency but a loose one is settled. */
    ghost predicate Inv(loose: Option<Prefix>)
      reads this`update, this`withdraw, this`advs, this`adjOut, this`adjs, this`hash, this`baas,
        this`sent, this`desired, adjs, baas
    {
      && Queues()
      && (forall j {:trigger AdjLink(j)} :: j in adjs ==> AdjLink(j))
      && (forall v {:trigger AdvLink(v)} :: v in advs ==> AdvLink(v))
      && (forall b {:trigger BaaLink(b)} :: b in baas ==> BaaLink(b))
      && (forall j {:trigger Settled(j)} :: j in adjs && loose != Some(j.rn) ==> Settled(j))
    }

    /** Every link agrees, every adjacency is settled, and the count is of the sent routes and those cleared. */
    ghost predicate Valid()
      reads this, adjs, baas
    {
      Inv(None) && scount == |sent| + leaked
    }

    /** The change made by cancelling what was pending for a prefix. */
    twostate predicate Cancelled(p: Prefix)
      requires old(p in adjOut && adjOut[p].adv != null)
      reads *
    {
      var j := old(adjOut[p]);
      var v: Adv := old(j.adv);
      && adjs == old(adjs) && adjOut == old(adjOut) && sent == old(sent) && desired == old(desired)
      && advs == old(advs) - {v}
      && update == Without(old(update), v) && withdraw == Without(old(withdraw), v)
      && j.adv == null && j.attr == old(j.attr)
      && (forall i :: i in adjs && i != j ==> i.adv == old(i.adv) && i.attr == old(i.attr))
      && (forall b :: b in old(baas) && b != v.baa ==> b.advs == old(b.advs) && b.refcnt == old(b.refcnt))
      && (if v.baa == null then baas == old(baas) && hash == old(hash) else
          && v.baa.advs == Without(old(v.baa.advs), v)
          && v.baa.refcnt == old(v.baa.refcnt) - 1
          && if v.baa.refcnt == 0 then baas == old(baas) - {v.baa} && hash == old(hash) - {v.baa.attr}
             else baas == old(baas) && hash == old(hash))
    }

    twostate lemma CancelAdjs(p: Prefix)
      requires old(p in adjOut && adjOut[p].adv != null && Inv(Some(p))) && Cancelled(p)
      ensures forall j {:trigger AdjLink(j)} :: j in adjs ==> AdjLink(j)
    {
      forall j | j in adjs ensures AdjLink(j) {
        assert old(AdjLink(j));
        if j.adv != null {
          assert old(AdjLink(adjOut[p]));
        }
      }
    }

    twostate lemma CancelAdvs(p: Prefix)
      requires old(p in adjOut && adjOut[p].adv != null && Inv(Some(p))) && Cancelled(p)
      ensures forall v {:trigger AdvLink(v)} :: v in advs ==> AdvLink(v)
    {
      var c: Adv := old(adjOut[p].adv);
      assert old(AdjLink(adjOut[p]) && AdvLink(c));
      WithoutMembers(old(update), c);
      WithoutMembers(old(withdraw), c);
      if c.baa != null {
        assert old(BaaLink(c.baa));
        WithoutMembers(old(c.baa.advs), c);
      }
      forall v | v in advs ensures AdvLink(v) {
        assert old(AdvLink(v));
      }
    }

    twostate lemma CancelBaas(p: Prefix)
      requires old(p in adjOut && adjOut[p].adv != null && Inv(Some(p))) && Cancelled(p)
      ensures forall b {:trigger BaaLink(b)} :: b in baas ==> BaaLink(b)
      ensures forall a :: a in hash ==> hash[a] in baas && hash[a].attr == a
    {
      var c: Adv := old(adjOut[p].adv);
      assert old(AdjLink(adjOut[p]) && AdvLink(c));
      if c.baa != null {
        assert old(BaaLink(c.baa));
        WithoutMembers(old(c.baa.advs), c);
      }
      forall b | b in baas ensures BaaLink(b) {
        assert old(BaaLink(b));
      }
    }

    twostate lemma CancelRest(p: Prefix)
      requires old(p in adjOut && adjOut[p].adv != null && Inv(Some(p))) && Cancelled(p)
      ensures NoDup(update) && NoDup(withdraw)
      ensures forall v :: v in update ==> v in advs
      ensures forall v :: v in withdraw ==> v in advs
      ensures forall j {:trigger Settled(j)} :: j in adjs && p != j.rn ==> Settled(j)
    {
      var c: Adv := old(adjOut[p].adv);
      WithoutMembers(old(update), c);
      WithoutMembers(old(withdraw), c);
      forall j | j in adjs && p != j.rn ensures Settled(j) {
        assert old(Settled(j));
      }
    }

    twostate lemma CancelKeeps(p: Prefix)
      requires old(p in adjOut && adjOut[p].adv != null && Inv(Some(p))) && Cancelled(p)
      ensures Inv(Some(p))
    {
      CancelAdjs(p);
      CancelAdvs(p);
      CancelBaas(p);
      CancelRest(p);
    }

    /** Take an advertisement off its shared attribute, which is released with its last one. */
    method Unshare(v: Adv, b: Baa) returns (next: Adv?)
      requires b in baas && NoDup(b.advs) && v in b.advs && b.refcnt == |b.advs|
      modifies this`hash, this`baas, b
      ensures b.advs == Without(old(b.advs), v) && b.refcnt == old(b.refcnt) - 1
      ensures if b.refcnt == 0 then baas == old(baas) - {b} && hash == old(hash) - {b.attr} && next == null
              else baas == old(baas) && hash == old(hash) && next != null && next in old(b.advs) && next != v
    {
      WithoutMembers(b.advs, v);
      b.advs := Without(b.advs, v);
      next := null;
      if b.advs != [] { next := b.advs[0]; }
      b.refcnt := b.refcnt - 1;
      if b.refcnt == 0 {
        hash := hash - {b.attr};
        baas := baas - {b};
      }
    }

    /** What is pending for an adjacency is linked both ways. */
    lemma PendingLinks(j: Adj)
      requires Inv(Some(j.rn)) && j in adjs && j.adv != null
      ensures adjOut.Keys >= {j.rn} && adjOut[j.rn] == j
      ensures j.adv in advs && j.adv.adj == j && j.adv.rn == j.rn
      ensures (j.adv in update <==> j.adv.baa != null) && (j.adv in withdraw <==> j.adv.baa == null)
      ensures j.adv.baa != null ==>
        && j.adv.baa in baas && j.adv in j.adv.baa.advs && NoDup(j.adv.baa.advs) && j.adv.baa.refcnt == |j.adv.baa.advs|
        && forall w :: w in j.adv.baa.advs ==> w in advs && w.baa == j.adv.baa
    {
      var v: Adv := j.adv;
      assert AdjLink(j) && AdvLink(v);
      if v.baa != null {
        assert BaaLink(v.baa);
      }
    }

    method Unlink(j: Adj) returns (next: Adv?)
      requires j in adjs && j.adv != null && j.rn in adjOut && adjOut[j.rn] == j
      requires var b := j.adv.baa; b != null ==> b in baas && NoDup(b.advs) && j.adv in b.advs && b.refcnt == |b.advs|
      modifies this`hash, this`update, this`withdraw, this`advs, this`baas, j`adv, baas
      ensures Cancelled(j.rn)
      ensures next != null ==> old(j.adv.baa != null && next in j.adv.baa.advs && next != j.adv)
      ensures next == null && old(j.adv).baa != null ==> old(j.adv).baa.attr !in hash
    {
      var v: Adv := j.adv;
      next := null;
      if v.baa != null {
        next := Unshare(v, v.baa);
      }
      update := Without(update, v);
      withdraw := Without(withdraw, v);
      j.adv := null;
      advs := advs - {v};
    }

    /** Cancel what is pending for an adjacency; the next advertisement sharing its attribute, if any. */
    method Clean(j: Adj) returns (next: Adv?)
      requires Inv(Some(j.rn)) && j in adjs && j.adv != null
      modifies this`hash, this`update, this`withdraw, this`advs, this`baas, j`adv, baas
      ensures Inv(Some(j.rn)) && j.adv == null && j.attr == old(j.attr)
      ensures adjs == old(adjs) && desired == old(desired) && sent == old(sent) && scount == old(scount)
      ensures advs == old(advs) - {old(j.adv)} && baas <= old(baas)
      ensures update == Without(old(update), old(j.adv)) && withdraw == Without(old(withdraw), old(j.adv))
      ensures old(j.adv).baa == null ==> next == null
      ensures next != null ==> next in advs && next.baa == old(j.adv).baa
      ensures old(j.adv).baa != null && next == null ==> old(j.adv).baa.attr !in hash
    {
      PendingLinks(j);
      next := Unlink(j);
      CancelKeeps(j.rn);
    }

    /** The change made by queueing an announcement for a prefix with nothing pending. */
    twostate predicate Announced(p: Prefix)
      requires old(p in adjOut && adjOut[p].adv == null)
      reads *
    {
      var j := old(adjOut[p]);
      && p in desired && var a := desired[p];
      && adjs == old(adjs) && adjOut == old(adjOut) && sent == old(sent) && desired == old(desired)[p := a]
      && j.attr == old(j.attr) && j.adv != null && j.adv !in old(advs)
      && j.adv.adj == j && j.adv.rn == p && j.adv.baa != null && j.adv.baa.attr == a
      && (forall i :: i in adjs && i != j ==> i.adv == old(i.adv) && i.attr == old(i.attr))
      && advs == old(advs) + {j.adv} && update == old(update) + [j.adv] && withdraw == old(withdraw)
      && (forall b :: b in old(baas) && b != j.adv.baa ==> b.advs == old(b.advs) && b.refcnt == old(b.refcnt))
      && hash == old(hash)[a := j.adv.baa] && baas == old(baas) + {j.adv.baa}
      && (if a in old(hash)
          then j.adv.baa == old(hash[a]) && j.adv.baa.advs == [j.adv] + old(hash[a].advs)
               && j.adv.baa.refcnt == old(hash[a].refcnt) + 1
          else j.adv.baa !in old(baas) && j.adv.baa.advs == [j.adv] && j.adv.baa.refcnt == 1)
    }

    twostate lemma AnnounceAdjs(p: Prefix)
      requires old(p in adjOut && adjOut[p].adv == null && Inv(Some(p))) && Announced(p)
      ensures forall j {:trigger AdjLink(j)} :: j in adjs ==> AdjLink(j)
      ensures forall j {:trigger Settled(j)} :: j in adjs ==> Settled(j)
    {
      forall j | j in adjs ensures AdjLink(j) && Settled(j) {
        assert old(AdjLink(j));
        if j.rn != p {
          assert old(Settled(j));
        }
      }
    }

    twostate lemma AnnounceAdvs(p: Prefix)
      requires old(p in adjOut && adjOut[p].adv == null && Inv(Some(p))) && Announced(p)
      ensures forall v {:trigger AdvLink(v)} :: v in advs ==> AdvLink(v)
    {
      var n: Adv := old(adjOut[p]).adv;
      assert n !in old(withdraw);
      forall v | v in advs ensures AdvLink(v) {
        if v != n {
          assert old(AdvLink(v));
          if v.baa == n.baa {
            assert old(BaaLink(v.baa));
          }
        }
      }
    }

    twostate lemma AnnounceBaas(p: Prefix)
      requires old(p in adjOut && adjOut[p].adv == null && Inv(Some(p))) && Announced(p)
      ensures forall b {:trigger BaaLink(b)} :: b in baas ==> BaaLink(b)
    {
      var n: Adv := old(adjOut[p]).adv;
      forall b | b in baas ensures BaaLink(b) {
        if b in old(baas) {
          assert old(BaaLink(b));
          if b == n.baa {
            PushFresh(old(b.advs), n);
          }
        }
      }
    }

    twostate lemma AnnounceKeeps(p: Prefix)
      requires old(p in adjOut && adjOut[p].adv == null && Inv(Some(p))) && Announced(p)
      ensures Inv(None)
    {
      AnnounceAdjs(p);
      AnnounceAdvs(p);
      AnnounceBaas(p);
      AppendFresh(old(update), old(adjOut[p]).adv);
    }

    /** The shared attribute for an attribute set, made when there is none. */
    method Intern(a: Attr) returns (b: Baa)
      requires forall c :: c in hash ==> hash[c] in baas && hash[c].attr == c
      modifies this`hash, this`baas, baas
      ensures b.attr == a && hash == old(hash)[a := b] && baas == old(baas) + {b}
      ensures if a in old(hash) then b == old(hash[a]) && b.advs == old(b.advs) && b.refcnt == old(b.refcnt) + 1
              else fresh(b) && b.advs == [] && b.refcnt == 1
      ensures forall c :: c in old(baas) && c != b ==> c.advs == old(c.advs) && c.refcnt == old(c.refcnt)
    {
      if a in hash {
        b := hash[a];
      } else {
        b := new Baa(a);
        hash := hash[a := b];
        baas := baas + {b};
      }
      b.refcnt := b.refcnt + 1;
    }

    /** A new advertisement at the head of its shared attribute's list. */
    method Share(j: Adj, a: Attr) returns (v: Adv)
      requires forall c :: c in hash ==> hash[c] in baas && hash[c].attr == c
      modifies this`hash, this`baas, baas
      ensures fresh(v) && v.rn == j.rn && v.adj == j && v.baa != null && v.baa.attr == a
      ensures hash == old(hash)[a := v.baa] && baas == old(baas) + {v.baa}
      ensures if a in old(hash)
              then v.baa == old(hash[a]) && v.baa.advs == [v] + old(hash[a].advs)
                   && v.baa.refcnt == old(hash[a].refcnt) + 1
              else fresh(v.baa) && v.baa.advs == [v] && v.baa.refcnt == 1
      ensures forall c :: c in old(baas) && c != v.baa ==> c.advs == old(c.advs) && c.refcnt == old(c.refcnt)
    {
      var b := Intern(a);
      v := new Adv(j, b);
      b.advs := [v] + b.advs;
    }

    method PushAdvert(j: Adj, a: Attr)
      requires j in adjs && j.rn in adjOut && adjOut[j.rn] == j && j.adv == null
      requires forall c :: c in hash ==> hash[c] in baas && hash[c].attr == c
      modifies this`hash, this`update, this`advs, this`baas, this`desired, j`adv, baas
      ensures Announced(j.rn) && desired == old(desired)[j.rn := a]
      ensures fresh(baas - old(baas))
    {
      var v := Share(j, a);
      j.adv := v;
      update := update + [v];
      advs := advs + {v};
      desired := desired[j.rn := a];
    }

    /** Queue an announcement for an adjacency with nothing pending. */
    method Announce(j: Adj, a: Attr)
      requires Inv(Some(j.rn)) && j in adjs && j.adv == null
      modifies this`hash, this`update, this`advs, this`baas, this`desired, j`adv, baas
      ensures Inv(None) && desired == old(desired)[j.rn := a]
      ensures adjs == old(adjs) && fresh(baas - old(baas))
      ensures sent == old(sent) && scount == old(scount) && leaked == old(leaked)
      ensures |update| == |old(update)| + 1 && withdraw == old(withdraw)
    {
      assert AdjLink(j);
      PushAdvert(j, a);
      AnnounceKeeps(j.rn);
    }

    /** The change made by queueing a withdrawal for a prefix with nothing pending. */
    twostate predicate Retracted(p: Prefix)
      requires old(p in adjOut && adjOut[p].adv == null)
      reads *
    {
      var j := old(adjOut[p]);
      && adjs == old(adjs) && adjOut == old(adjOut) && sent == old(sent) && desired == old(desired) - {p}
      && j.attr == old(j.attr) && j.adv != null && j.adv !in old(advs)
      && j.adv.adj == j && j.adv.rn == p && j.adv.baa == null
      && (forall i :: i in adjs && i != j ==> i.adv == old(i.adv) && i.attr == old(i.attr))
      && advs == old(advs) + {j.adv} && withdraw == old(withdraw) + [j.adv] && update == old(update)
      && hash == old(hash) && baas == old(baas)
      && (forall b :: b in baas ==> b.advs == old(b.advs) && b.refcnt == old(b.refcnt))
    }

    twostate lemma RetractKeeps(p: Prefix)
      requires old(p in adjOut && adjOut[p].adv == null && adjOut[p].attr.Some? && Inv(Some(p))) && Retracted(p)
      ensures Inv(None)
    {
      var n: Adv := old(adjOut[p]).adv;
      AppendFresh(old(withdraw), n);
      forall j | j in adjs ensures AdjLink(j) && Settled(j) {
        assert old(AdjLink(j));
        if j.rn != p {
          assert old(Settled(j));
        }
      }
      forall v | v in advs ensures AdvLink(v) {
        if v != n {
          assert old(AdvLink(v));
        }
      }
      forall b | b in baas ensures BaaLink(b) {
        assert old(BaaLink(b));
      }
    }

    /** Queue a withdrawal for an adjacency with nothing pending whose route was sent. */
    method Retract(j: Adj)
      requires Inv(Some(j.rn)) && j in adjs && j.adv == null && j.attr.Some?
      modifies this`withdraw, this`advs, this`desired, j`adv
      ensures Inv(None) && desired == old(desired) - {j.rn} && adjs == old(adjs) && baas == old(baas)
      ensures sent == old(sent) && scount == old(scount) && leaked == old(leaked)
      ensures update == old(update) && |withdraw| == |old(withdraw)| + 1
    {
      assert AdjLink(j);
      var v := new Adv(j, null);
      j.adv := v;
      withdraw := withdraw + [v];
      advs := advs + {v};
      desired := desired - {j.rn};
      RetractKeeps(j.rn);
    }

    /** The change made by an adjacency coming into or going out of existence. */
    twostate predicate Replaced()
      reads *
    {
      && hash == old(hash) && baas == old(baas) && advs == old(advs)
      && update == old(update) && withdraw == old(withdraw)
      && sent == old(sent)
      && (forall b :: b in baas ==> b.advs == old(b.advs) && b.refcnt == old(b.refcnt))
      && (forall i :: i in adjs && i in old(adjs) ==> i.adv == old(i.adv) && i.attr == old(i.attr))
    }

    twostate lemma AddKeeps(p: Prefix)
      requires old(Inv(None) && p !in adjOut) && Replaced() && desired == old(desired)
      requires p in adjOut && adjOut[p].rn == p && adjOut[p].adv == null && adjOut[p].attr == None
        && adjOut[p] !in old(adjs)
      requires adjOut == old(adjOut)[p := adjOut[p]] && adjs == old(adjs) + {adjOut[p]}
      ensures Inv(Some(p))
    {
      forall j | j in adjs ensures AdjLink(j) && (j.rn != p ==> Settled(j)) {
        if j in old(adjs) {
          assert old(AdjLink(j));
          assert old(Settled(j));
        }
      }
      forall v | v in advs ensures AdvLink(v) {
        assert old(AdvLink(v));
      }
      forall b | b in baas ensures BaaLink(b) {
        assert old(BaaLink(b));
      }
    }

    twostate lemma DropKeeps(p: Prefix)
      requires old(p in adjOut && adjOut[p].adv == null && adjOut[p].attr == None && Inv(Some(p))) && Replaced()
      requires adjOut == old(adjOut) - {p} && adjs == old(adjs) - {old(adjOut[p])} && desired == old(desired) - {p}
      ensures Inv(None)
    {
      assert old(AdjLink(adjOut[p]));
      forall j | j in adjs ensures AdjLink(j) && Settled(j) {
        assert old(AdjLink(j));
        assert old(Settled(j));
      }
      forall v | v in advs ensures AdvLink(v) {
        assert old(AdvLink(v));
      }
      forall b | b in baas ensures BaaLink(b) {
        assert old(BaaLink(b));
      }
    }

    method Drop(j: Adj)
      requires Inv(Some(j.rn)) && j in adjs && j.adv == null && j.attr == None
      modifies this`adjOut, this`adjs, this`desired
      ensures Inv(None) && desired == old(desired) - {j.rn} && adjs == old(adjs) - {j} && baas == old(baas)
      ensures sent == old(sent) && scount == old(scount) && leaked == old(leaked)
        && update == old(update) && withdraw == old(withdraw)
    {
      assert AdjLink(j);
      adjOut := adjOut - {j.rn};
      adjs := adjs - {j};
      desired := desired - {j.rn};
      DropKeeps(j.rn);
    }

    /** The change made by recording what was last sent for a prefix. */
    twostate lemma MarkKeeps(p: Prefix)
      requires old(p in adjOut && Inv(Some(p)))
      requires adjOut == old(adjOut) && adjs == old(adjs) && desired == old(desired)
      requires hash == old(hash) && baas == old(baas) && advs == old(advs)
        && update == old(update) && withdraw == old(withdraw)
      requires forall b :: b in baas ==> b.advs == old(b.advs) && b.refcnt == old(b.refcnt)
      requires forall i :: i in adjs ==> i.adv == old(i.adv) && (i.rn != p ==> i.attr == old(i.attr))
      requires forall q :: Get(sent, q) == if q == p then adjOut[p].attr else old(Get(sent, q))
      requires sent.Keys <= adjOut.Keys
      ensures Inv(Some(p))
    {
      forall j | j in adjs ensures AdjLink(j) && (j.rn != p ==> Settled(j)) {
        assert old(AdjLink(j));
        if j.rn != p {
          assert old(Settled(j));
        }
      }
      forall v | v in advs ensures AdvLink(v) {
        assert old(AdvLink(v));
      }
      forall b | b in baas ensures BaaLink(b) {
        assert old(BaaLink(b));
      }
    }

    constructor ()
      ensures Valid() && desired == map[] && sent == map[] && scount == 0 && leaked == 0
      ensures adjs == {} && baas == {}
    {
      adjOut, hash := map[], map[];
      update, withdraw, scount := [], [], 0;
      adjs, advs, baas := {}, {}, {};
      desired, sent, leaked := map[], map[], 0;
    }

    /** Whether a route is announced or about to be. */
    method Lookup(p: Prefix) returns (b: bool)
      requires Valid()
      ensures b <==> p in desired
    {
      if p !in adjOut {
        return false;
      }
      var j := adjOut[p];
      assert Settled(j);
      if j.adv != null {
        b := j.adv.baa != null;
      } else {
        b := j.attr.Some?;
      }
    }

    /** Cancel whatever is pending for an adjacency. */
    method Quiet(j: Adj)
      requires Inv(Some(j.rn)) && j in adjs
      modifies this`hash, this`update, this`withdraw, this`advs, this`baas, j`adv, baas
      ensures Inv(Some(j.rn)) && j.adv == null && j.attr == old(j.attr) && baas <= old(baas)
      ensures adjs == old(adjs) && adjOut == old(adjOut)
      ensures desired == old(desired) && sent == old(sent) && scount == old(scount) && leaked == old(leaked)
      ensures old(j.adv != null && j.adv in withdraw) ==> update == old(update) && |withdraw| == |old(withdraw)| - 1
      ensures |update| <= |old(update)| && |withdraw| <= |old(withdraw)|
    {
      if j.adv != null {
        PendingLinks(j);
        WithoutMembers(withdraw, j.adv);
        WithoutMembers(update, j.adv);
        var _ := Clean(j);
      }
    }

    method FindAdj(p: Prefix) returns (j: Adj)
      requires Inv(None)
      modifies this`adjOut, this`adjs
      ensures Inv(Some(p)) && j.rn == p && j in adjs
      ensures adjs == old(adjs) + {j} && (j in old(adjs) || fresh(j)) && baas == old(baas)
      ensures desired == old(desired) && sent == old(sent) && scount == old(scount) && leaked == old(leaked)
      ensures update == old(update) && withdraw == old(withdraw)
    {
      if p in adjOut {
        j := adjOut[p];
      } else {
        j := new Adj(p);
        adjOut := adjOut[p := j];
        adjs := adjs + {j};
        AddKeeps(p);
      }
    }

    /** Ask for a route to be announced, in place of anything pending for it. */
    method Set(p: Prefix, a: Attr)
      requires Valid()
      modifies this, adjs, baas
      ensures Valid() && desired == old(desired)[p := a] && sent == old(sent) && leaked == old(leaked)
      ensures fresh(adjs - old(adjs)) && fresh(baas - old(baas))
      ensures |update| <= |old(update)| + 1 && |withdraw| <= |old(withdraw)|
    {
      var j := FindAdj(p);
      Quiet(j);
      Announce(j, a);
    }

    /** Ask for a route to be gone: withdrawn when it was sent, forgotten when it was not. */
    method Unset(p: Prefix)
      requires Valid()
      modifies this, adjs, baas
      ensures Valid() && desired == old(desired) - {p} && sent == old(sent) && leaked == old(leaked)
      ensures adjs <= old(adjs) && baas <= old(baas)
      ensures |update| <= |old(update)| && |withdraw| <= |old(withdraw)| + 1
    {
      if p !in adjOut {
        return;
      }
      var j := adjOut[p];
      Quiet(j);
      if j.attr.Some? {
        Retract(j);
      } else {
        Drop(j);
      }
    }

    static function Marked(table: map<Prefix, Attr>, p: Prefix, o: Option<Attr>): map<Prefix, Attr> {
      if o.Some? then table[p := o.value] else table - {p}
    }

    /** Record what the peer now holds for a prefix. */
    method Mark(j: Adj, o: Option<Attr>)
      requires Inv(Some(j.rn)) && j in adjs
      modifies this`sent, j`attr
      ensures Inv(Some(j.rn)) && j.attr == o && j.adv == old(j.adv) && sent == Marked(old(sent), j.rn, o)
      ensures adjs == old(adjs) && baas == old(baas) && desired == old(desired) && scount == old(scount)
      ensures update == old(update) && withdraw == old(withdraw)
    {
      assert AdjLink(j);
      j.attr := o;
      sent := Marked(sent, j.rn, o);
      MarkKeeps(j.rn);
    }

    lemma Settle(j: Adj)
      requires Inv(Some(j.rn)) && j in adjs && Settled(j)
      ensures Inv(None)
    {
      assert AdjLink(j);
      forall i | i in adjs ensures Settled(i) {
        assert AdjLink(i);
      }
    }

    /** The announcement at hand goes out: the peer holds it, and nothing is pending for its prefix. */
    method SendOne(v: Adv) returns (next: Adv?)
      requires Inv(None) && v in update
      modifies this`hash, this`update, this`withdraw, this`advs, this`baas, this`sent, this`scount, v.adj, baas
      ensures Inv(None) && v.baa != null && Get(desired, v.rn) == Some(v.baa.attr)
      ensures sent == old(sent)[v.rn := v.baa.attr] && update == Without(old(update), v) && withdraw == old(withdraw)
      ensures |update| == |old(update)| - 1 && baas <= old(baas) && adjs == old(adjs) && desired == old(desired)
      ensures scount - |sent| == old(scount) - |old(sent)|
      ensures if next == null then v.baa.attr !in hash else next in update && next.baa == v.baa
    {
      var j := v.adj;
      assert AdvLink(v) && Settled(j) && AdjLink(j);
      WithoutMembers(update, v);
      if j.attr == None {
        scount := scount + 1;
      }
      Mark(j, Some(v.baa.attr));
      next := Clean(j);
      Settle(j);
      if next != null {
        assert AdvLink(next);
      }
    }

    /** An announcement fits a packet beside its attribute set. */
    static predicate FitsAdv(v: Adv, attrLen: Attr -> nat) {
      v.baa != null ==> Fits(attrLen(v.baa.attr), v.rn)
    }

    /** What is left of a queue is from it, and what does not fit is all left. */
    static ghost predicate Kept(before: seq<Adv>, after: seq<Adv>, attrLen: Attr -> nat) {
      && (forall v :: v in after ==> v in before)
      && (forall v :: v in before && !FitsAdv(v, attrLen) ==> v in after)
    }

    static lemma KeptWithout(before: seq<Adv>, after: seq<Adv>, v: Adv, attrLen: Attr -> nat)
      requires Kept(before, after, attrLen) && NoDup(after) && FitsAdv(v, attrLen)
      ensures Kept(before, Without(after, v), attrLen)
    {
      WithoutMembers(after, v);
    }

    static lemma KeptTransitive(a: seq<Adv>, b: seq<Adv>, c: seq<Adv>, attrLen: Attr -> nat)
      requires Kept(a, b, attrLen) && Kept(b, c, attrLen)
      ensures Kept(a, c, attrLen)
    {
    }

    lemma HeadFits(attrLen: Attr -> nat)
      requires Valid() && Fitting(desired, attrLen)
      ensures forall v :: v in update ==> FitsAdv(v, attrLen)
    {
      forall v | v in update ensures FitsAdv(v, attrLen) {
        assert AdvLink(v) && Settled(v.adj);
      }
    }

    /**
     * Build one UPDATE from the head of the update queue: its attribute set, and every prefix sharing it that there is
     * room for. Room for the first prefix is looked for before the attribute set is written, so the build aborts just
     * when the two together do not fit.
     */
    method SendUpdate(attrLen: Attr -> nat) returns (r: Built)
      requires Valid()
      modifies this`hash, this`update, this`withdraw, this`advs, this`baas, this`sent, this`scount, adjs, baas
      ensures Valid() && withdraw == old(withdraw) && baas <= old(baas)
      ensures adjs == old(adjs) && desired == old(desired) && leaked == old(leaked)
      ensures r == Nothing <==> old(update) == []
      ensures r == Aborted <==> old(update) != [] && !FitsAdv(old(update)[0], attrLen)
      ensures !r.Built? ==> sent == old(sent) && update == old(update)
      ensures r.Built? ==>
        && r.m.Update? && r.m.nlri != []
        && sent == Learn(old(sent), r.m.attr, r.m.nlri)
        && |update| == |old(update)| - |r.m.nlri|
        && Used(attrLen(r.m.attr), r.m.nlri) <= PACKET_SIZE
      ensures r.Built? ==> forall p :: p in r.m.nlri ==> Get(desired, p) == Some(r.m.attr)
      ensures r.Built? && r.m.attr in hash ==> Used(attrLen(r.m.attr), r.m.nlri) >= PACKET_SIZE - 5
      ensures Kept(old(update), update, attrLen)
    {
      if update == [] {
        return Nothing;
      }
      var v: Adv? := update[0];
      assert AdvLink(v);
      var a := v.baa.attr;
      var n := attrLen(a);
      var nlri, size := [], 0;
      while v != null
        invariant Inv(None) && scount - |sent| == old(scount) - |old(sent)|
        invariant withdraw == old(withdraw) && baas <= old(baas) && adjs == old(adjs) && desired == old(desired)
        invariant if v == null then nlri != [] && a !in hash else v in update && v.baa != null && v.baa.attr == a
        invariant if nlri == [] then v == old(update)[0] && update == old(update) else FitsAdv(old(update)[0], attrLen)
        invariant sent == Learn(old(sent), a, nlri) && |update| == |old(update)| - |nlri|
        invariant forall p :: p in nlri ==> Get(desired, p) == Some(a)
        invariant size == Used(n, nlri) <= PACKET_SIZE
        invariant Kept(old(update), update, attrLen)
        decreases |update|
      {
        var p := v.rn;
        if PACKET_SIZE - size <= 1 + PSize(|p|) {
          break;
        }
        UsedSnoc(n, nlri, p);
        UsedOne(n, p);
        LearnSnoc(old(sent), a, nlri, p);
        if size == 0 {
          size := HEADER_SIZE + 4 + n;
        }
        size := size + 1 + PSize(|p|);
        if size > PACKET_SIZE {
          return Aborted;
        }
        nlri := nlri + [p];
        assert AdvLink(v);
        KeptWithout(old(update), update, v, attrLen);
        v := SendOne(v);
      }
      r := Built(Update(a, nlri));
    }

    method Unmark(j: Adj)
      requires Inv(Some(j.rn)) && j in adjs
      modifies this`sent, j`attr
      ensures Inv(Some(j.rn)) && j.attr == None && j.adv == old(j.adv) && sent == old(sent) - {j.rn}
      ensures adjs == old(adjs) && baas == old(baas) && desired == old(desired)
      ensures scount == old(scount) && leaked == old(leaked)
        && update == old(update) && withdraw == old(withdraw)
    {
      assert AdjLink(j);
      if j.attr.Some? {
        Mark(j, None);
      }
    }

    /** Take an adjacency away with everything pending for it. */
    method Remove(j: Adj)
      requires Inv(None) && j in adjs
      modifies this`hash, this`update, this`withdraw, this`advs, this`baas, this`sent, this`desired,
        this`adjOut, this`adjs, j, baas
      ensures Inv(None) && sent == old(sent) - {j.rn} && desired == old(desired) - {j.rn}
      ensures adjs == old(adjs) - {j} && baas <= old(baas) && scount == old(scount) && leaked == old(leaked)
      ensures old(j.adv != null && j.adv in withdraw) ==> update == old(update) && |withdraw| == |old(withdraw)| - 1
      ensures |update| <= |old(update)| && |withdraw| <= |old(withdraw)|
    {
      Unmark(j);
      Quiet(j);
      Drop(j);
    }

    /** The withdrawal at the head of its queue goes out, and its adjacency with it. */
    method WithdrawOne() returns (p: Prefix)
      requires Inv(None) && withdraw != []
      modifies this`hash, this`update, this`withdraw, this`advs, this`baas, this`sent, this`desired,
        this`adjOut, this`adjs, this`scount, adjs, baas
      requires scount >= |sent|
      ensures Inv(None) && p == old(withdraw)[0].rn && p in old(sent) && sent == old(sent) - {p}
      ensures desired == old(desired) && p !in desired
      ensures adjs <= old(adjs) && baas <= old(baas) && leaked == old(leaked)
      ensures update == old(update) && |withdraw| == |old(withdraw)| - 1
      ensures scount - |sent| == old(scount) - |old(sent)|
    {
      WithdrawHead();
      p := withdraw[0].rn;
      scount := scount - 1;
      Remove(withdraw[0].adj);
    }

    /** The withdrawal at the head of its queue is of a sent, no longer desired route. */
    lemma WithdrawHead()
      requires Inv(None) && withdraw != []
      ensures var v := withdraw[0];
        && v.adj in adjs && v.adj.adv == v && v.rn == v.adj.rn && v in withdraw
        && v.rn in sent && v.rn !in desired
    {
      var v := withdraw[0];
      assert AdvLink(v) && AdjLink(v.adj) && Settled(v.adj);
    }

    /** Build one UPDATE withdrawing as many queued routes as fit. */
    method SendWithdraw() returns (r: Built)
      requires Valid()
      modifies this`hash, this`update, this`withdraw, this`advs, this`baas, this`sent, this`desired,
        this`adjOut, this`adjs, this`scount, adjs, baas
      ensures Valid() && update == old(update) && desired == old(desired)
      ensures adjs <= old(adjs) && baas <= old(baas) && leaked == old(leaked)
      ensures r == Nothing <==> old(withdraw) == []
      ensures r == Nothing ==> sent == old(sent) && withdraw == old(withdraw)
      ensures r != Aborted
      ensures r.Built? ==>
        && r.m.Withdraw? && r.m.routes != []
        && sent == Forget(old(sent), r.m.routes)
        && |withdraw| == |old(withdraw)| - |r.m.routes|
        && HEADER_SIZE + 2 + NlriSize(r.m.routes) + 2 <= PACKET_SIZE
      ensures r.Built? ==> forall p :: p in r.m.routes ==> p in old(sent) && p !in desired
    {
      var routes, size := [], 0;
      while withdraw != []
        invariant Inv(None) && scount - |sent| == old(scount) - |old(sent)|
        invariant update == old(update) && desired == old(desired)
        invariant adjs <= old(adjs) && baas <= old(baas) && leaked == old(leaked)
        invariant sent == Forget(old(sent), routes) && |withdraw| == |old(withdraw)| - |routes|
        invariant size == (if routes == [] then 0 else HEADER_SIZE + 2 + NlriSize(routes)) && size + 2 <= PACKET_SIZE
        invariant forall p :: p in routes ==> p in old(sent) && p !in desired
        decreases |withdraw|
      {
        var p := withdraw[0].rn;
        if PACKET_SIZE - size < 3 + PSize(|p|) {
          break;
        }
        if size == 0 {
          size := HEADER_SIZE + 2;
        }
        size := size + 1 + PSize(|p|);
        NlriSnoc(routes, p);
        ForgetSnoc(old(sent), routes, p);
        ForgetSubset(old(sent), routes);
        routes := routes + [p];
        var _ := WithdrawOne();
      }
      r := if size == 0 then Nothing else Built(Withdraw(routes));
    }

    /** Forget a prefix when the session's routes are cleared; a sent route stays counted. */
    method Clear(p: Prefix)
      requires Valid()
      modifies this, adjs, baas
      ensures Valid() && desired == old(desired) - {p} && sent == old(sent) - {p}
      ensures leaked == old(leaked) + (if p in old(sent) then 1 else 0) && scount == old(scount)
      ensures adjs <= old(adjs) && baas <= old(baas)
      ensures |update| <= |old(update)| && |withdraw| <= |old(withdraw)|
    {
      if p in adjOut {
        leaked := leaked + if p in sent then 1 else 0;
        Remove(adjOut[p]);
        assert |old(sent) - {p}| == |old(sent)| - if p in old(sent) then 1 else 0;
      }
    }

    /** A prefix has at most one pending advertisement, in exactly one queue. */
    lemma OnePending(v: Adv, w: Adv)
      requires Valid() && (v in update || v in withdraw) && (w in update || w in withdraw) && v.rn == w.rn
      ensures v == w && (v in update <==> v !in withdraw)
    {
      assert AdvLink(v) && AdvLink(w) && AdjLink(v.adj) && AdjLink(w.adj);
    }

    /** A shared attribute is known exactly while announcements with it are queued, and counts them. */
    lemma SharedCount(a: Attr)
      requires Valid()
      ensures a in hash <==> exists v :: v in update && v.baa != null && v.baa.attr == a
      ensures a in hash ==> hash[a].refcnt == |set v | v in update && v.baa == hash[a]|
    {
      forall v | v in update && v.baa != null && v.baa.attr == a ensures a in hash {
        assert AdvLink(v) && BaaLink(v.baa);
      }
      if a in hash {
        var b := hash[a];
        assert BaaLink(b) && AdvLink(b.advs[0]);
        forall v | v in update && v.baa == b ensures v in b.advs { assert AdvLink(v); }
        forall v | v in b.advs ensures v in update { assert AdvLink(v); }
        assert (set v | v in update && v.baa == b) == set v | v in b.advs;
        ListSize(b.advs);
      }
    }

    /** With both queues empty, the peer holds exactly the desired routes. */
    lemma Drained()
      requires Valid() && update == [] && withdraw == []
      ensures sent == desired && hash == map[] && scount == |desired| + leaked
    {
      forall p | p in adjOut ensures Get(sent, p) == Get(desired, p) {
        var j := adjOut[p];
        assert AdjLink(j) && Settled(j);
        assert j.adv != null ==> AdvLink(j.adv);
      }
      forall a ensures a !in hash { SharedCount(a); }
      assert forall p :: p in sent <==> p in desired by {
        forall p ensures p in sent <==> p in desired {
          if p in adjOut { assert Get(sent, p) == Get(desired, p); }
        }
      }
      assert forall p :: p in sent ==> sent[p] == desired[p] by {
        forall p | p in sent ensures sent[p] == desired[p] { assert Get(sent, p) == Get(desired, p); }
      }
    }

    /** One message from either queue. */
    method Send(attrLen: Attr -> nat) returns (r: Built)
      requires Valid() && (update != [] || withdraw != [])
      modifies this, adjs, baas
      ensures Valid() && desired == old(desired) && leaked == old(leaked)
      ensures adjs <= old(adjs) && baas <= old(baas) && Kept(old(update), update, attrLen)
      ensures r == Aborted ==> sent == old(sent) && exists v :: v in old(update) && !FitsAdv(v, attrLen)
      ensures r != Aborted ==> r.Built? && sent == Receive(old(sent), r.m)
      ensures r != Aborted ==> |update| + |withdraw| < |old(update)| + |old(withdraw)|
    {
      if {
        case update != [] => r := SendUpdate(attrLen);
        case withdraw != [] => r := SendWithdraw();
      }
    }

    /**
     * Send until nothing is queued or a packet overflows, choosing either queue at every turn. The peer ends up with
     * the desired routes exactly when every queued announcement fits a packet beside its attribute set.
     */
    method Drain(attrLen: Attr -> nat) returns (ms: seq<Message>, ok: bool)
      requires Valid()
      modifies this, adjs, baas
      ensures Valid() && desired == old(desired) && leaked == old(leaked)
      ensures adjs <= old(adjs) && baas <= old(baas)
      ensures sent == Replay(old(sent), ms)
      ensures ok <==> forall v :: v in old(update) ==> FitsAdv(v, attrLen)
      ensures ok ==> sent == desired && update == [] && withdraw == []
    {
      ms, ok := [], true;
      while update != [] || withdraw != []
        invariant Valid() && desired == old(desired) && leaked == old(leaked)
        invariant adjs <= old(adjs) && baas <= old(baas)
        invariant sent == Replay(old(sent), ms) && Kept(old(update), update, attrLen)
        decreases |update| + |withdraw|
      {
        ghost var before := update;
        var r := Send(attrLen);
        if r == Aborted {
          return ms, false;
        }
        KeptTransitive(old(update), before, update, attrLen);
        ReplaySnoc(old(sent), ms, r.m);
        ms := ms + [r.m];
      }
      Drained();
    }

    /** The only route wanted, not yet sent, heads the update queue. */
    lemma OneQueued(p: Prefix, a: Attr)
      requires Valid() && desired == map[p := a] && sent == map[]
      ensures update != [] && update[0].rn == p && update[0].baa != null && update[0].baa.attr == a
    {
      var j := adjOut[p];
      assert AdjLink(j) && Settled(j) && j.adv != null && AdvLink(j.adv);
      var v := update[0];
      assert AdvLink(v) && Settled(v.adj);
    }

    ghost function Now(): World
      reads this`update, this`withdraw, this`desired, this`sent, this`leaked
    {
      World(desired, sent, leaked, Load(|update|, |withdraw|))
    }

    /** One step of a run, and what the peer sees of it; only an update whose head does not fit aborts. */
    method Step(op: Op, attrLen: Attr -> nat) returns (es: seq<Event>, ok: bool)
      requires Valid()
      modifies this, adjs, baas
      ensures Valid() && fresh(adjs - old(adjs)) && fresh(baas - old(baas))
      ensures ok <==> !(op == SendingUpdate && old(update) != [] && !FitsAdv(old(update)[0], attrLen))
      ensures ok ==> Stepped(op, es, old(Now()), Now())
    {
      ok := true;
      match op {
        case Announcing(p, a) =>
          es := AnnounceStep(p, a);
        case Withdrawing(p) =>
          es := RetractStep(p);
        case SendingUpdate =>
          es, ok := UpdateStep(attrLen);
        case SendingWithdraw =>
          es := WithdrawStep();
        case Clearing(p) =>
          es := ClearStep(p);
      }
    }

    method AnnounceStep(p: Prefix, a: Attr) returns (es: seq<Event>)
      requires Valid()
      modifies this, adjs, baas
      ensures Valid() && fresh(adjs - old(adjs)) && fresh(baas - old(baas))
      ensures Stepped(Announcing(p, a), es, old(Now()), Now())
    {
      Set(p, a);
      es := [];
    }

    method RetractStep(p: Prefix) returns (es: seq<Event>)
      requires Valid()
      modifies this, adjs, baas
      ensures Valid() && adjs <= old(adjs) && baas <= old(baas)
      ensures Stepped(Withdrawing(p), es, old(Now()), Now())
    {
      Unset(p);
      es := [];
    }

    method ClearStep(p: Prefix) returns (es: seq<Event>)
      requires Valid()
      modifies this, adjs, baas
      ensures Valid() && adjs <= old(adjs) && baas <= old(baas)
      ensures Stepped(Clearing(p), es, old(Now()), Now())
    {
      Clear(p);
      es := [Cleared(p)];
      ObserveOne(old(sent), es[0]);
    }

    method UpdateStep(attrLen: Attr -> nat) returns (es: seq<Event>, ok: bool)
      requires Valid()
      modifies this, adjs, baas
      ensures Valid() && adjs <= old(adjs) && baas <= old(baas)
      ensures ok <==> !(old(update) != [] && !FitsAdv(old(update)[0], attrLen))
      ensures ok ==> Stepped(SendingUpdate, es, old(Now()), Now())
    {
      var r := SendUpdate(attrLen);
      ok := r != Aborted;
      es := if r.Built? then [Sent(r.m)] else [];
      if r.Built? {
        ObserveOne(old(sent), es[0]);
      }
    }

    method WithdrawStep() returns (es: seq<Event>)
      requires Valid()
      modifies this, adjs, baas
      ensures Valid() && adjs <= old(adjs) && baas <= old(baas)
      ensures Stepped(SendingWithdraw, es, old(Now()), Now())
    {
      var r := SendWithdraw();
      es := if r.Built? then [Sent(r.m)] else [];
      if r.Built? {
        ObserveOne(old(sent), es[0]);
      }
    }

    method RunStep(ops: seq<Op>, i: nat, attrLen: Attr -> nat, logs: seq<seq<Event>>, ghost w: World)
      returns (logs': seq<seq<Event>>, ok: bool)
      requires Valid() && i < |ops| && Ran(ops[..i], logs, w, Now())
      modifies this, adjs, baas
      ensures Valid() && fresh(adjs - old(adjs)) && fresh(baas - old(baas))
      ensures ok ==> Ran(ops[..i + 1], logs', w, Now())
      ensures Fitting(old(desired), attrLen) && FitOp(ops[i], attrLen) ==> ok && Fitting(desired, attrLen)
    {
      if Fitting(desired, attrLen) {
        HeadFits(attrLen);
      }
      var es;
      es, ok := Step(ops[i], attrLen);
      logs' := logs + [es];
      if ok {
        RanSnoc(ops, i, logs, es, w, old(Now()), Now());
      }
      if Fitting(old(desired), attrLen) && FitOp(ops[i], attrLen) {
        FittingIntent(old(desired), ops[i], attrLen);
      }
    }

    method RunFrom(ops: seq<Op>, i: nat, attrLen: Attr -> nat, logs: seq<seq<Event>>, ghost w: World)
      returns (logs': seq<seq<Event>>, ok: bool)
      requires Valid() && i <= |ops| && Ran(ops[..i], logs, w, Now())
      modifies this, adjs, baas
      ensures Valid() && (ok ==> Ran(ops, logs', w, Now()))
      ensures Fitting(old(desired), attrLen) && (forall op :: op in ops ==> FitOp(op, attrLen)) ==> ok
      decreases |ops| - i
    {
      logs', ok := logs, true;
      if i == |ops| {
        assert ops[..i] == ops;
      } else {
        logs', ok := RunStep(ops, i, attrLen, logs, w);
        if ok {
          logs', ok := RunFrom(ops, i + 1, attrLen, logs', w);
        }
      }
    }

    /**
     * Any run of requests, sends and clears that does not abort, and it does not when all routes fit: the routes wanted
     * are those the requests spell out, the peer's table is the replay of what it saw, the two are the same once
     * the queues are empty, which enough sends bring about, and the count is off by exactly the held routes cleared.
     */
    method Run(ops: seq<Op>, attrLen: Attr -> nat) returns (logs: seq<seq<Event>>, ok: bool)
      requires Valid()
      modifies this, adjs, baas
      ensures Valid()
      ensures Fitting(old(desired), attrLen) && (forall op :: op in ops ==> FitOp(op, attrLen)) ==> ok
      ensures ok ==> Ran(ops, logs, old(Now()), Now())
      ensures ok ==> desired == Intents(old(desired), ops) && sent == Observe(old(sent), Flat(logs))
      ensures ok && Loads(old(Now()).queued, ops) == Load(0, 0) ==> sent == desired
      ensures ok && update == [] && withdraw == [] ==> sent == desired
      ensures ok ==> scount - |sent| == old(scount) - |old(sent)| + Losses(old(sent), Flat(logs))
      ensures ok && (forall i :: 0 <= i < |ops| ==> !ops[i].Clearing?) ==> scount - |sent| == old(scount) - |old(sent)|
    {
      logs, ok := RunFrom(ops, 0, attrLen, [], Now());
      if ok {
        RanMeans(ops, logs, old(Now()), Now());
        if forall i :: 0 <= i < |ops| ==> !ops[i].Clearing? {
          NothingCleared(ops);
          NothingLost(old(sent), Flat(logs));
        }
      }
      if update == [] && withdraw == [] {
        Drained();
      }
    }
  }

  /** A peer with one route to announce. */
  method QueuedPeer(p: Prefix, a: Attr) returns (peer: Peer)
    ensures fresh(peer) && peer.Valid() && fresh(peer.adjs) && fresh(peer.baas)
    ensures peer.desired == map[p := a] && peer.sent == map[] && peer.leaked == 0
  {
    peer := new Peer();
    peer.Set(p, a);
  }

  /** The count of sent routes is off after a session holding one is cleared: one counted, none announced. */
  method ClearMiscounts(p: Prefix, a: Attr) returns (counted: nat, announced: bool)
    ensures counted == 1 && !announced
  {
    var peer := QueuedPeer(p, a);
    UsedOne(0, p);
    peer.HeadFits(_ => 0);
    var _, _ := peer.Drain(_ => 0);
    peer.Clear(p);
    counted := peer.scount;
    announced := peer.Lookup(p);
  }

  /** An attribute set that leaves no room for a prefix aborts the build instead of being announced. */
  method OversizeAborts(p: Prefix, a: Attr) returns (r: Built)
    ensures r == Aborted
  {
    var peer := QueuedPeer(p, a);
    UsedOne(5000, p);
    peer.OneQueued(p, a);
    r := peer.SendUpdate(_ => 5000);
  }
}
