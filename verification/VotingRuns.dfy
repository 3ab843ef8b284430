/**
 * What the voting exchange comes to over whole runs: what a router holds and says, read off the messages that reached
 * it, and a round of voting that ends in a report.
 */
module VotingRuns {
  import opened Voting
  import opened Wrappers
  import Trust

  // ---------- runs ----------

  lemma TakeShaped(s: Net, e: Step)
    requires Shaped(s)
    ensures Shaped(Take(s, e))
  {
    if e.Alive? {
      KeepaliveStep(s, e.x, e.y, e.trust);
    }
  }

  /** The network after a run. */
  ghost function At(s: Net, steps: seq<Step>): (t: Net)
    requires Shaped(s)
    ensures Shaped(t)
  {
    if steps == [] then s else
    var n := |steps| - 1;
    TakeShaped(At(s, steps[..n]), steps[n]);
    Take(At(s, steps[..n]), steps[n])
  }

  /** Folding steps, whatever they are. */
  ghost function Fold(f: (Net, Step) -> Net, s: Net, steps: seq<Step>): Net {
    if steps == [] then s else f(Fold(f, s, steps[..|steps| - 1]), steps[|steps| - 1])
  }

  lemma {:induction false} FoldConcat(f: (Net, Step) -> Net, s: Net, a: seq<Step>, b: seq<Step>)
    ensures Fold(f, s, a + b) == Fold(f, Fold(f, s, a), b)
  {
    if b == [] {
      assert a + b == a;
    } else {
      var n := |b| - 1;
      assert (a + b)[..|a + b| - 1] == a + b[..n] && (a + b)[|a + b| - 1] == b[n];
      FoldConcat(f, s, a, b[..n]);
    }
  }

  ghost function Taking(): (Net, Step) -> Net {
    (s: Net, e: Step) => if Shaped(s) then Take(s, e) else s
  }

  lemma {:induction false} AtIsFold(s: Net, steps: seq<Step>)
    requires Shaped(s)
    ensures At(s, steps) == Fold(Taking(), s, steps)
  {
    if steps != [] {
      AtIsFold(s, steps[..|steps| - 1]);
    }
  }

  lemma AtConcat(s: Net, a: seq<Step>, b: seq<Step>)
    requires Shaped(s)
    ensures At(s, a + b) == At(At(s, a), b)
  {
    AtIsFold(s, a + b);
    AtIsFold(s, a);
    AtIsFold(At(s, a), b);
    FoldConcat(Taking(), s, a, b);
  }

  lemma AtOne(s: Net, e: Step)
    requires Shaped(s)
    ensures Shaped(Take(s, e)) && At(s, [e]) == Take(s, e)
  {
    TakeShaped(s, e);
    assert [e][..0] == [];
  }

  lemma AtFirst(s: Net, steps: seq<Step>)
    requires Shaped(s) && steps != []
    ensures Shaped(Take(s, steps[0])) && At(s, steps) == At(Take(s, steps[0]), steps[1..])
  {
    AtOne(s, steps[0]);
    assert steps == [steps[0]] + steps[1..];
    AtConcat(s, [steps[0]], steps[1..]);
  }

  /** It is the network that the run reaches. */
  lemma {:induction false} ReachesAt(s: Net, steps: seq<Step>, t: Net)
    requires Shaped(s)
    ensures Reaches(s, steps, t) <==> t == At(s, steps)
    decreases |steps|
  {
    if steps != [] {
      AtFirst(s, steps);
      ReachesAt(Take(s, steps[0]), steps[1..], t);
    }
  }

  // ---------- what a run shows ----------

  /** The message from z that a step brings to x. */
  ghost function Heard(s: Net, e: Step, x: Id, z: Id): Option<Msg>
    requires Shaped(s)
  {
    if e.Delivered? && e.x == z && e.y == x && e.k < |s.links[(z, x)].flight| then Some(s.links[(z, x)].flight[e.k])
    else None
  }

  /** The step has x send y a report. */
  ghost predicate Reported(s: Net, e: Step, x: Id, y: Id)
    requires Shaped(s)
  {
    TakeShaped(s, e);
    |Take(s, e).links[(x, y)].reportsSent| > |s.links[(x, y)].reportsSent|
  }

  ghost predicate SomeReport(s: Net, e: Step, x: Id)
    requires Shaped(s)
  {
    exists y: Id :: Reported(s, e, x, y)
  }

  /** The step has x send y a vote. */
  ghost predicate Voted(s: Net, e: Step, x: Id, y: Id)
    requires Shaped(s)
  {
    TakeShaped(s, e);
    |Take(s, e).links[(x, y)].votesSent| > |s.links[(x, y)].votesSent|
  }

  /** A request of y has reached x, which has more than one neighbour, and no report has gone to y since. */
  ghost predicate Waiting(s: Net, steps: seq<Step>, x: Id, y: Id)
    requires Shaped(s)
  {
    if steps == [] then s.nodes[x].requests[y] == 1 else
    var n := |steps| - 1;
    var b, e := At(s, steps[..n]), steps[n];
    if Heard(b, e, x, y) == Some(PeersRequest) && s.nodes[x].neighbors > 1 then true
    else !Reported(b, e, x, y) && Waiting(s, steps[..n], x, y)
  }

  /** A vote request of y has reached x, and no vote has gone to y since. */
  ghost predicate Asked(s: Net, steps: seq<Step>, x: Id, y: Id)
    requires Shaped(s)
  {
    if steps == [] then s.nodes[x].responses[y] == 1 else
    var n := |steps| - 1;
    var b, e := At(s, steps[..n]), steps[n];
    if Heard(b, e, x, y) == Some(VoteRequest) then true
    else !Voted(b, e, x, y) && Asked(s, steps[..n], x, y)
  }

  /** The trust values of z that have reached x. */
  ghost function TrustHeard(s: Net, steps: seq<Step>, x: Id, z: Id): seq<nat>
    requires Shaped(s)
  {
    if steps == [] then [] else
    var n := |steps| - 1;
    var m := Heard(At(s, steps[..n]), steps[n], x, z);
    TrustHeard(s, steps[..n], x, z) + if m.Some? && m.value.TrustValue? then [m.value.v] else []
  }

  ghost function WaitingFor(s: Net, steps: seq<Step>, x: Id): set<Id>
    requires Shaped(s)
  {
    set w: Id | Waiting(s, steps, x, w)
  }

  /** The step is a report of x after which nobody waits for one. */
  ghost predicate Clears(s: Net, steps: seq<Step>, x: Id)
    requires Shaped(s) && steps != []
  {
    var n := |steps| - 1;
    SomeReport(At(s, steps[..n]), steps[n], x) && WaitingFor(s, steps, x) == {}
  }

  /** The last vote of z to reach x since x last cleared its votes, or zero. */
  ghost function LastVote(s: Net, steps: seq<Step>, x: Id, z: Id): nat
    requires Shaped(s)
  {
    if steps == [] then s.nodes[x].votes[z] else
    var n := |steps| - 1;
    var m := Heard(At(s, steps[..n]), steps[n], x, z);
    if m.Some? && m.value.VoteResponse? then m.value.v
    else if Clears(s, steps, x) then 0
    else LastVote(s, steps[..n], x, z)
  }

  // ---------- one step ----------

  /** The files of x after a keepalive to y. */
  lemma AliveFiles(n: Node, y: Id)
    requires WellFormed(n)
    ensures var report := NonZero(n.votes) == n.neighbors && n.requests[y] == 1;
      var r := Answer(Collect(n, y).0, y).0;
      && r.neighbors == n.neighbors && r.obs == n.obs && r.own == n.own
      && r.requests == (if report then n.requests[y := 0] else n.requests)
      && r.responses == n.responses[y := 0]
      && r.votes == (if report && NonZero(n.requests[y := 0]) == 0 then Zeros() else n.votes)
  {
    assert n.responses[y] != 1 ==> n.responses[y := 0] == n.responses;
  }

  /** What the messages of a keepalive add to a link. */
  lemma EmitFour(l: Link, trust: nat, c: seq<Msg>, a: seq<Msg>)
    requires |c| <= 1 && |a| <= 1
    requires c != [] ==> c[0].Report? || c[0].VoteRequest?
    requires a != [] ==> a[0].VoteResponse?
    ensures var ms := [TrustValue(trust), PeersRequest] + c + a;
      var r := EmitAll(l, ms);
      && r.flight == l.flight + ms
      && r.reportsSent == l.reportsSent + (if c != [] && c[0].Report? then [c[0].votes] else [])
      && r.votesSent == l.votesSent + (if a != [] then [a[0].v] else [])
      && r.voteRequestsSent == l.voteRequestsSent + (if c != [] && c[0].VoteRequest? then 1 else 0)
  {
    var head := [TrustValue(trust), PeersRequest];
    EmitAllConcat(l, head + c, a);
    EmitAllConcat(l, head, c);
    assert head[1..] == [PeersRequest] && [PeersRequest][1..] == [];
    assert EmitAll(l, head) == Emit(Emit(l, TrustValue(trust)), PeersRequest);
    EmitOne(EmitAll(l, head), c);
    EmitOne(EmitAll(l, head + c), a);
  }

  lemma EmitOne(l: Link, ms: seq<Msg>)
    requires |ms| <= 1
    ensures EmitAll(l, ms) == if ms == [] then l else Emit(l, ms[0])
    ensures EmitAll(l, ms).flight == l.flight + ms
  {
    assert ms != [] ==> ms[1..] == [] && ms == [ms[0]];
  }

  /** A keepalive changes nothing but the files of its sender and the link it goes over. */
  lemma AliveStep(s: Net, x: Id, y: Id, trust: nat)
    requires Shaped(s)
    ensures var n := s.nodes[x]; var c := Collect(n, y); var a := Answer(c.0, y); var t := Take(s, Alive(x, y, trust));
      && t.nodes == s.nodes[x := a.0]
      && (forall p: Id, q: Id :: (p, q) != (x, y) ==> t.links[(p, q)] == s.links[(p, q)])
      && t.links[(x, y)] == EmitAll(s.links[(x, y)], [TrustValue(trust), PeersRequest] + c.1 + a.1)
  {
    TakeShaped(s, Alive(x, y, trust));
    KeepaliveStep(s, x, y, trust);
  }

  /** When a step sends a report or a vote. */
  lemma SendsExactly(s: Net, e: Step, x: Id, y: Id)
    requires Shaped(s)
    ensures var n := s.nodes[x]; var keepalive := e.Alive? && e.x == x && e.y == y;
      && (Reported(s, e, x, y) <==> keepalive && NonZero(n.votes) == n.neighbors && n.requests[y] == 1)
      && (Voted(s, e, x, y) <==> keepalive && n.responses[y] == 1)
  {
    TakeShaped(s, e);
    if e.Alive? {
      AliveStep(s, e.x, e.y, e.trust);
      var c := Collect(s.nodes[e.x], e.y);
      EmitFour(s.links[(e.x, e.y)], e.trust, c.1, Answer(c.0, e.y).1);
    }
  }

  /** The entries for y in the files of x after a step. */
  ghost predicate FileStep(n: Node, r: Node, y: Id, m: Option<Msg>, reported: bool, voted: bool, cleared: bool)
    requires WellFormed(n) && WellFormed(r)
  {
    && r.neighbors == n.neighbors && r.own == n.own
    && r.requests[y] == (
         if m == Some(PeersRequest) && n.neighbors > 1 then 1 else if reported then 0 else n.requests[y])
    && r.responses[y] == (if m == Some(VoteRequest) then 1 else if voted then 0 else n.responses[y])
    && r.obs[y] == (if m.Some? && m.value.TrustValue? then Trust.Average(n.obs[y], m.value.v) else n.obs[y])
    && r.votes[y] == (if m.Some? && m.value.VoteResponse? then m.value.v else if cleared then 0 else n.votes[y])
  }

  lemma AliveFileStep(s: Net, e: Step, x: Id, y: Id)
    requires Shaped(s) && e.Alive?
    ensures Shaped(Take(s, e)) && Heard(s, e, x, y) == None
    ensures var r := Take(s, e).nodes[x];
      FileStep(s.nodes[x], r, y, None, Reported(s, e, x, y), Voted(s, e, x, y),
               SomeReport(s, e, x) && NonZero(r.requests) == 0)
  {
    TakeShaped(s, e);
    AliveStep(s, e.x, e.y, e.trust);
    AliveFiles(s.nodes[x], e.y);
    SendsExactly(s, e, x, y);
    SendsExactly(s, e, x, e.y);
    forall w: Id | Reported(s, e, x, w) ensures w == e.y && e.x == x {
      SendsExactly(s, e, x, w);
    }
  }

  lemma OtherFileStep(s: Net, e: Step, x: Id, y: Id)
    requires Shaped(s) && !e.Alive?
    ensures Shaped(Take(s, e)) && !Reported(s, e, x, y) && !Voted(s, e, x, y)
    ensures FileStep(s.nodes[x], Take(s, e).nodes[x], y, Heard(s, e, x, y), false, false, false)
  {
    TakeShaped(s, e);
    SendsExactly(s, e, x, y);
  }

  lemma AnyFileStep(s: Net, e: Step, x: Id, y: Id)
    requires Shaped(s)
    ensures Shaped(Take(s, e))
    ensures var r := Take(s, e).nodes[x];
      FileStep(s.nodes[x], r, y, Heard(s, e, x, y), Reported(s, e, x, y), Voted(s, e, x, y),
               SomeReport(s, e, x) && NonZero(r.requests) == 0)
  {
    if e.Alive? {
      AliveFileStep(s, e, x, y);
    } else {
      OtherFileStep(s, e, x, y);
      forall w: Id ensures !Reported(s, e, x, w) {
        OtherFileStep(s, e, x, w);
      }
    }
  }

  // ---------- whole runs ----------

  /** What x holds about y, read off the run. */
  ghost predicate Holds(s: Net, steps: seq<Step>, x: Id, y: Id)
    requires Shaped(s)
  {
    var n := At(s, steps).nodes[x];
    && n.neighbors == s.nodes[x].neighbors && n.own == s.nodes[x].own
    && (n.requests[y] == 1 <==> Waiting(s, steps, x, y))
    && (n.responses[y] == 1 <==> Asked(s, steps, x, y))
    && n.obs[y] == Trust.Averages(s.nodes[x].obs[y], TrustHeard(s, steps, x, y))
    && n.votes[y] == LastVote(s, steps, x, y)
  }

  lemma NoneFlagged(flags: seq<nat>, waits: set<Id>)
    requires Flags(flags) && forall w: Id :: w in waits <==> flags[w] == 1
    ensures NonZero(flags) == 0 <==> waits == {}
  {
    NonZeroNone(flags);
    if waits == {} {
      forall i | 0 <= i < |flags| ensures flags[i] == 0 {
        var w: Id := i;
        assert w !in waits;
      }
    }
  }

  lemma {:induction false} AveragesSnoc(x: nat, rs: seq<nat>, r: nat)
    ensures Trust.Averages(x, rs + [r]) == Trust.Average(Trust.Averages(x, rs), r)
    decreases |rs|
  {
    if rs == [] {
      assert (rs + [r])[1..] == [];
    } else {
      assert (rs + [r])[1..] == rs[1..] + [r];
      AveragesSnoc(Trust.Average(x, rs[0]), rs[1..], r);
    }
  }

  lemma WaitingStep(s: Net, steps: seq<Step>, x: Id, y: Id)
    requires Shaped(s) && steps != [] && Holds(s, steps[..|steps| - 1], x, y)
    ensures At(s, steps).nodes[x].requests[y] == 1 <==> Waiting(s, steps, x, y)
  {
    var n := |steps| - 1;
    var b, e := At(s, steps[..n]), steps[n];
    AnyFileStep(b, e, x, y);
  }

  lemma AskedStep(s: Net, steps: seq<Step>, x: Id, y: Id)
    requires Shaped(s) && steps != [] && Holds(s, steps[..|steps| - 1], x, y)
    ensures var n := At(s, steps).nodes[x];
      && n.neighbors == s.nodes[x].neighbors && n.own == s.nodes[x].own
      && (n.responses[y] == 1 <==> Asked(s, steps, x, y))
  {
    var n := |steps| - 1;
    var b, e := At(s, steps[..n]), steps[n];
    AnyFileStep(b, e, x, y);
  }

  lemma TrustStep(s: Net, steps: seq<Step>, x: Id, y: Id)
    requires Shaped(s) && steps != [] && Holds(s, steps[..|steps| - 1], x, y)
    ensures At(s, steps).nodes[x].obs[y] == Trust.Averages(s.nodes[x].obs[y], TrustHeard(s, steps, x, y))
  {
    var n := |steps| - 1;
    var b, e := At(s, steps[..n]), steps[n];
    var m, rs := Heard(b, e, x, y), TrustHeard(s, steps[..n], x, y);
    AnyFileStep(b, e, x, y);
    if m.Some? && m.value.TrustValue? {
      AveragesSnoc(s.nodes[x].obs[y], rs, m.value.v);
    } else {
      assert rs + [] == rs;
    }
  }

  /** A step clears the votes exactly when it reports and leaves no request. */
  lemma ClearsStep(s: Net, steps: seq<Step>, x: Id)
    requires Shaped(s) && steps != []
    requires forall w: Id :: Waiting(s, steps, x, w) <==> At(s, steps).nodes[x].requests[w] == 1
    ensures var b, e := At(s, steps[..|steps| - 1]), steps[|steps| - 1];
      Clears(s, steps, x) <==> SomeReport(b, e, x) && NonZero(At(s, steps).nodes[x].requests) == 0
  {
    NoneFlagged(At(s, steps).nodes[x].requests, WaitingFor(s, steps, x));
  }

  lemma VoteStep(s: Net, steps: seq<Step>, x: Id, y: Id)
    requires Shaped(s) && steps != [] && Holds(s, steps[..|steps| - 1], x, y)
    requires forall w: Id :: Waiting(s, steps, x, w) <==> At(s, steps).nodes[x].requests[w] == 1
    ensures At(s, steps).nodes[x].votes[y] == LastVote(s, steps, x, y)
  {
    var n := |steps| - 1;
    var b, e := At(s, steps[..n]), steps[n];
    ClearsStep(s, steps, x);
    AnyFileStep(b, e, x, y);
  }

  /**
   * In every run each router holds exactly what reached it: requests not yet reported on and vote requests not yet
   * answered, the average of the trust values that came, and of each neighbour the last vote since the votes were last
   * cleared.
   */
  lemma {:induction false} FilesHold(s: Net, steps: seq<Step>, x: Id)
    requires Shaped(s)
    ensures forall y: Id :: Holds(s, steps, x, y)
  {
    if steps == [] {
      forall y: Id ensures Holds(s, steps, x, y) {
        assert s.nodes[x].requests[y] <= 1;
      }
    } else {
      FilesHold(s, steps[..|steps| - 1], x);
      forall w: Id ensures Waiting(s, steps, x, w) <==> At(s, steps).nodes[x].requests[w] == 1 {
        WaitingStep(s, steps, x, w);
      }
      forall y: Id ensures Holds(s, steps, x, y) {
        AskedStep(s, steps, x, y);
        TrustStep(s, steps, x, y);
        VoteStep(s, steps, x, y);
      }
    }
  }

  /** All messages of z that have reached x. */
  ghost function HeardAll(s: Net, steps: seq<Step>, x: Id, z: Id): seq<Msg>
    requires Shaped(s)
  {
    if steps == [] then [] else
    var n := |steps| - 1;
    var m := Heard(At(s, steps[..n]), steps[n], x, z);
    HeardAll(s, steps[..n], x, z) + if m.Some? then [m.value] else []
  }

  /** Messages of which only the number is kept. */
  datatype Kind = Request | Poll | Vote

  predicate Is(m: Msg, k: Kind) {
    match k
    case Request => m.PeersRequest?
    case Poll => m.VoteRequest?
    case Vote => m.VoteResponse?
  }

  function HowMany(ms: seq<Msg>, k: Kind): nat {
    if ms == [] then 0 else HowMany(ms[..|ms| - 1], k) + if Is(ms[|ms| - 1], k) then 1 else 0
  }

  function ReportsIn(ms: seq<Msg>): seq<seq<nat>> {
    if ms == [] then [] else
    ReportsIn(ms[..|ms| - 1]) + if ms[|ms| - 1].Report? then [ms[|ms| - 1].votes] else []
  }

  /** A link has seen messages arrive. */
  predicate Passed(l: Link, r: Link, ms: seq<Msg>) {
    && r.requestsGot == l.requestsGot + HowMany(ms, Request)
    && r.voteRequestsGot == l.voteRequestsGot + HowMany(ms, Poll)
    && r.votesGot == l.votesGot + HowMany(ms, Vote)
    && r.reportsGot == l.reportsGot + ReportsIn(ms)
  }

  predicate SameGot(l: Link, r: Link) {
    r.requestsGot == l.requestsGot && r.voteRequestsGot == l.voteRequestsGot && r.votesGot == l.votesGot
    && r.reportsGot == l.reportsGot
  }

  lemma {:induction false} EmitGot(l: Link, ms: seq<Msg>)
    ensures SameGot(l, EmitAll(l, ms))
    decreases |ms|
  {
    if ms != [] {
      EmitGot(Emit(l, ms[0]), ms[1..]);
    }
  }

  lemma PassedOne(l: Link, r: Link, ms: seq<Msg>, k: nat)
    requires Passed(l, r, ms) && k < |r.flight|
    ensures Passed(l, Arrive(r, k), ms + [r.flight[k]])
  {
    var m := r.flight[k];
    var all := ms + [m];
    assert all[..|ms|] == ms && all[|ms|] == m;
    assert m.Report? ==> l.reportsGot + (ReportsIn(ms) + [m.votes]) == l.reportsGot + ReportsIn(ms) + [m.votes];
    assert ReportsIn(ms) + [] == ReportsIn(ms);
  }

  lemma GotStep(s: Net, e: Step, x: Id, z: Id)
    requires Shaped(s) && Shaped(Take(s, e))
    ensures var m := Heard(s, e, x, z); var l, r := s.links[(z, x)], Take(s, e).links[(z, x)];
      && (m == None ==> SameGot(l, r))
      && (m.Some? ==> e.k < |l.flight| && m.value == l.flight[e.k] && r == Arrive(l, e.k))
  {
    if e.Alive? {
      AliveStep(s, e.x, e.y, e.trust);
      var c := Collect(s.nodes[e.x], e.y);
      EmitGot(s.links[(e.x, e.y)], [TrustValue(e.trust), PeersRequest] + c.1 + Answer(c.0, e.y).1);
    }
  }

  /** What is counted as arrived on a link is what was delivered over it. */
  lemma {:induction false} GotExactly(s: Net, steps: seq<Step>, x: Id, z: Id)
    requires Shaped(s)
    ensures Passed(s.links[(z, x)], At(s, steps).links[(z, x)], HeardAll(s, steps, x, z))
  {
    var l := s.links[(z, x)];
    if steps == [] {
      assert l.reportsGot + [] == l.reportsGot;
    } else {
      var n := |steps| - 1;
      var b, e := At(s, steps[..n]), steps[n];
      GotExactly(s, steps[..n], x, z);
      TakeShaped(b, e);
      GotStep(b, e, x, z);
      if Heard(b, e, x, z).Some? {
        PassedOne(l, b.links[(z, x)], HeardAll(s, steps[..n], x, z), e.k);
      } else {
        assert HeardAll(s, steps[..n], x, z) + [] == HeardAll(s, steps[..n], x, z);
      }
    }
  }

  // ---------- what a router says ----------

  /** The last votes of all routers, and those that gave one other than zero. */
  ghost function VotesOf(s: Net, steps: seq<Step>, x: Id): (v: seq<nat>)
    requires Shaped(s)
    ensures |v| == ROUTERS && forall z: Id :: v[z] == LastVote(s, steps, x, z)
  {
    seq(ROUTERS, z requires 0 <= z < ROUTERS => LastVote(s, steps, x, z))
  }

  ghost function VotersOf(s: Net, steps: seq<Step>, x: Id): set<Id>
    requires Shaped(s)
  {
    set z: Id | LastVote(s, steps, x, z) != 0
  }

  /** The trust of x in y: the average of what y said of itself, and its own, in 16 bits. */
  ghost function TrustIn(s: Net, steps: seq<Step>, x: Id, y: Id): nat
    requires Shaped(s)
  {
    (Trust.Averages(s.nodes[x].obs[y], TrustHeard(s, steps, x, y)) + s.nodes[x].own[y]) % 0x10000
  }

  /** What a keepalive from x to y has to say after a run. */
  ghost function Says(s: Net, steps: seq<Step>, x: Id, y: Id, trust: nat): seq<Msg>
    requires Shaped(s)
  {
    [TrustValue(trust), PeersRequest] +
    (if |VotersOf(s, steps, x)| != s.nodes[x].neighbors then
       (if WaitingFor(s, steps, x) != {} then [VoteRequest] else [])
     else if Waiting(s, steps, x, y) then [Report(VotesOf(s, steps, x))] else []) +
    (if Asked(s, steps, x, y) then [VoteResponse(TrustIn(s, steps, x, y))] else [])
  }

  lemma VotesCounted(votes: seq<nat>, voters: set<Id>)
    requires |votes| == ROUTERS && forall z: Id :: z in voters <==> votes[z] != 0
    ensures NonZero(votes) == |voters|
  {
    NonZeroMarks(votes, ROUTERS);
    assert votes[..ROUTERS] == votes && Marks(votes, ROUTERS) == voters;
  }

  lemma SomeFlagged(flags: seq<nat>, waits: set<Id>)
    requires Flags(flags) && forall w: Id :: w in waits <==> flags[w] == 1
    ensures 1 in flags <==> waits != {}
  {
    if w: Id :| w in waits {
      assert flags[w] == 1;
    }
    if i :| 0 <= i < |flags| && flags[i] == 1 {
      var w: Id := i;
      assert w in waits;
    }
  }

  /** The parts of a keepalive as the files have them, when those are what the run says. */
  lemma CollectSays(s: Net, steps: seq<Step>, x: Id, y: Id)
    requires Shaped(s) && forall z: Id :: Holds(s, steps, x, z)
    ensures Collect(At(s, steps).nodes[x], y).1 ==
      if |VotersOf(s, steps, x)| != s.nodes[x].neighbors then
        (if WaitingFor(s, steps, x) != {} then [VoteRequest] else [])
      else if Waiting(s, steps, x, y) then [Report(VotesOf(s, steps, x))] else []
  {
    var n := At(s, steps).nodes[x];
    assert Holds(s, steps, x, y);
    forall z: Id ensures n.votes[z] == LastVote(s, steps, x, z) && (n.requests[z] == 1 <==> Waiting(s, steps, x, z)) {
      assert Holds(s, steps, x, z);
    }
    assert n.votes == VotesOf(s, steps, x) by {
      forall i | 0 <= i < ROUTERS ensures n.votes[i] == VotesOf(s, steps, x)[i] {
        var z: Id := i;
        assert n.votes[z] == LastVote(s, steps, x, z);
      }
    }
    VotesCounted(n.votes, VotersOf(s, steps, x));
    SomeFlagged(n.requests, WaitingFor(s, steps, x));
  }

  lemma AnswerSays(s: Net, steps: seq<Step>, x: Id, y: Id)
    requires Shaped(s) && Holds(s, steps, x, y)
    ensures var n := At(s, steps).nodes[x];
      Answer(Collect(n, y).0, y).1 == if Asked(s, steps, x, y) then [VoteResponse(TrustIn(s, steps, x, y))] else []
  {
    CollectKeeps(At(s, steps).nodes[x], y);
  }

  lemma CollectKeeps(n: Node, y: Id)
    requires WellFormed(n)
    ensures var r := Collect(n, y).0; r.responses == n.responses && r.obs == n.obs && r.own == n.own
  {
  }

  /**
   * In every run a keepalive says exactly this: a report of the last votes when the request of its receiver waits and
   * as many routers have voted as there are neighbours, a vote request when some request waits for votes, and a vote,
   * which is the trust held in the receiver at that moment, when the receiver asked for it.
   */
  lemma KeepaliveSays(s: Net, steps: seq<Step>, x: Id, y: Id, trust: nat)
    requires Shaped(s)
    ensures var l, l' := At(s, steps).links[(x, y)], At(s, steps + [Alive(x, y, trust)]).links[(x, y)];
      && l' == EmitAll(l, Says(s, steps, x, y, trust))
      && l'.flight == l.flight + Says(s, steps, x, y, trust)
  {
    var b, all := At(s, steps), steps + [Alive(x, y, trust)];
    assert all[..|steps|] == steps;
    AliveStep(b, x, y, trust);
    FilesHold(s, steps, x);
    CollectSays(s, steps, x, y);
    assert Holds(s, steps, x, y);
    AnswerSays(s, steps, x, y);
    var c := Collect(b.nodes[x], y);
    EmitFour(b.links[(x, y)], trust, c.1, Answer(c.0, y).1);
  }

  // ---------- a round of voting ----------

  /** The vote z gives on x. */
  ghost function VoteOn(s: Net, z: Id, x: Id): nat
    requires Shaped(s)
  {
    (s.nodes[z].obs[x] + s.nodes[z].own[x]) % 0x10000
  }

  /** What a round leaves alone: all trust, everything x files but votes and answers, and the reports x has sent. */
  ghost predicate RoundKeeps(s: Net, t: Net, x: Id)
    requires Shaped(s) && Shaped(t)
  {
    && (forall w: Id {:trigger t.nodes[w]} :: t.nodes[w].obs == s.nodes[w].obs && t.nodes[w].own == s.nodes[w].own)
    && t.nodes[x].requests == s.nodes[x].requests && t.nodes[x].neighbors == s.nodes[x].neighbors
    && (forall w: Id {:trigger t.links[(x, w)]} ::
          t.links[(x, w)].reportsSent == s.links[(x, w)].reportsSent
          && t.links[(x, w)].reportsGot == s.links[(x, w)].reportsGot)
  }

  /** x asks z: a keepalive to z while votes are missing carries a vote request. */
  lemma AskGoesOut(s: Net, x: Id, z: Id, trust: nat)
    requires Shaped(s) && x != z
    requires NonZero(s.nodes[x].votes) != s.nodes[x].neighbors && 1 in s.nodes[x].requests
    ensures var t := Take(s, Alive(x, z, trust)); var k := |s.links[(x, z)].flight| + 2;
      && Shaped(t) && RoundKeeps(s, t, x) && t.nodes[x].votes == s.nodes[x].votes
      && k < |t.links[(x, z)].flight| && t.links[(x, z)].flight[k] == VoteRequest
  {
    TakeShaped(s, Alive(x, z, trust));
    AliveStep(s, x, z, trust);
    AliveFiles(s.nodes[x], z);
    var c := Collect(s.nodes[x], z);
    EmitFour(s.links[(x, z)], trust, c.1, Answer(c.0, z).1);
    EmitReports(s.links[(x, z)], trust, c.1, Answer(c.0, z).1);
  }

  lemma EmitReports(l: Link, trust: nat, c: seq<Msg>, a: seq<Msg>)
    requires |c| <= 1 && |a| <= 1
    ensures EmitAll(l, [TrustValue(trust), PeersRequest] + c + a).reportsGot == l.reportsGot
  {
    var head := [TrustValue(trust), PeersRequest];
    EmitAllConcat(l, head + c, a);
    EmitAllConcat(l, head, c);
    assert head[1..] == [PeersRequest] && [PeersRequest][1..] == [];
    EmitOne(EmitAll(l, head), c);
    EmitOne(EmitAll(l, head + c), a);
  }

  /** The request arrives. */
  lemma AskArrives(s: Net, x: Id, z: Id, k: nat)
    requires Shaped(s) && x != z && k < |s.links[(x, z)].flight| && s.links[(x, z)].flight[k] == VoteRequest
    ensures var t := Take(s, Delivered(x, z, k));
      && Shaped(t) && RoundKeeps(s, t, x) && t.nodes[x] == s.nodes[x] && t.nodes[z].responses[x] == 1
  {
    TakeShaped(s, Delivered(x, z, k));
  }

  /** A keepalive of another router leaves x and its links alone. */
  lemma OthersAlive(s: Net, x: Id, z: Id, trust: nat)
    requires Shaped(s) && x != z
    ensures var t := Take(s, Alive(z, x, trust)); Shaped(t) && RoundKeeps(s, t, x) && t.nodes[x] == s.nodes[x]
  {
    TakeShaped(s, Alive(z, x, trust));
    AliveStep(s, z, x, trust);
    AliveFiles(s.nodes[z], x);
  }

  /** The next keepalive of z to x ends with its vote. */
  lemma VoteGoesOut(s: Net, x: Id, z: Id, trust: nat)
    requires Shaped(s) && s.nodes[z].responses[x] == 1
    ensures var t := Take(s, Alive(z, x, trust)); Shaped(t) && t.links[(z, x)].flight != []
    ensures var f := Take(s, Alive(z, x, trust)).links[(z, x)].flight; f[|f| - 1] == VoteResponse(VoteOn(s, z, x))
  {
    TakeShaped(s, Alive(z, x, trust));
    AliveStep(s, z, x, trust);
    var c := Collect(s.nodes[z], x);
    EmitFour(s.links[(z, x)], trust, c.1, Answer(c.0, x).1);
  }

  /** The vote arrives. */
  lemma VoteArrives(s: Net, x: Id, z: Id, v: nat)
    requires Shaped(s) && x != z && s.links[(z, x)].flight != []
    requires s.links[(z, x)].flight[|s.links[(z, x)].flight| - 1] == VoteResponse(v)
    ensures var t := Take(s, Delivered(z, x, |s.links[(z, x)].flight| - 1));
      && Shaped(t) && RoundKeeps(s, t, x) && t.nodes[x].votes == s.nodes[x].votes[z := v]
  {
    TakeShaped(s, Delivered(z, x, |s.links[(z, x)].flight| - 1));
  }

  lemma JoinRounds(s: Net, a: seq<Step>, b: seq<Step>, x: Id, z: Id)
    requires Shaped(s) && RoundKeeps(s, At(s, a), x) && RoundKeeps(At(s, a), At(At(s, a), b), x)
    ensures At(s, a + b) == At(At(s, a), b) && RoundKeeps(s, At(s, a + b), x)
    ensures VoteOn(At(s, a), z, x) == VoteOn(s, z, x)
  {
    RoundKeepsOn(s, At(s, a), At(At(s, a), b), x);
    SameVote(s, At(s, a), x, z);
    AtConcat(s, a, b);
  }

  lemma SameVote(s: Net, t: Net, x: Id, z: Id)
    requires Shaped(s) && Shaped(t) && RoundKeeps(s, t, x)
    ensures VoteOn(t, z, x) == VoteOn(s, z, x)
  {
    assert t.nodes[z].obs == s.nodes[z].obs && t.nodes[z].own == s.nodes[z].own;
  }

  lemma AtTwo(s: Net, e: Step, e': Step)
    requires Shaped(s)
    ensures Shaped(Take(s, e)) && Shaped(Take(Take(s, e), e')) && At(s, [e, e']) == Take(Take(s, e), e')
  {
    AtOne(s, e);
    AtOne(Take(s, e), e');
    AtConcat(s, [e], [e']);
    assert [e] + [e'] == [e, e'];
  }

  /** Two steps that have z know that x wants its vote. */
  lemma Ask(s: Net, x: Id, z: Id, trust: nat) returns (steps: seq<Step>)
    requires Shaped(s) && x != z
    requires NonZero(s.nodes[x].votes) != s.nodes[x].neighbors && 1 in s.nodes[x].requests
    ensures var t := At(s, steps);
      RoundKeeps(s, t, x) && t.nodes[x].votes == s.nodes[x].votes && t.nodes[z].responses[x] == 1
  {
    var e, e' := Alive(x, z, trust), Delivered(x, z, |s.links[(x, z)].flight| + 2);
    AskGoesOut(s, x, z, trust);
    var s1 := Take(s, e);
    AskArrives(s1, x, z, e'.k);
    steps := [e, e'];
    AtTwo(s, e, e');
    RoundKeepsOn(s, s1, At(s, steps), x);
  }

  /** Two steps that bring x the vote. */
  lemma Reply(s: Net, x: Id, z: Id, trust: nat) returns (steps: seq<Step>)
    requires Shaped(s) && x != z && s.nodes[z].responses[x] == 1
    ensures var t := At(s, steps); RoundKeeps(s, t, x) && t.nodes[x].votes == s.nodes[x].votes[z := VoteOn(s, z, x)]
  {
    var e := Alive(z, x, trust);
    OthersAlive(s, x, z, trust);
    VoteGoesOut(s, x, z, trust);
    var s1 := Take(s, e);
    var e' := Delivered(z, x, |s1.links[(z, x)].flight| - 1);
    VoteArrives(s1, x, z, VoteOn(s, z, x));
    steps := [e, e'];
    AtTwo(s, e, e');
    RoundKeepsOn(s, s1, At(s, steps), x);
  }

  /** Four steps that bring x the vote of z. */
  lemma PollOne(s: Net, x: Id, z: Id, trust: nat) returns (steps: seq<Step>)
    requires Shaped(s) && x != z
    requires NonZero(s.nodes[x].votes) != s.nodes[x].neighbors && 1 in s.nodes[x].requests
    ensures var t := At(s, steps); RoundKeeps(s, t, x) && t.nodes[x].votes == s.nodes[x].votes[z := VoteOn(s, z, x)]
  {
    var ask := Ask(s, x, z, trust);
    var t := At(s, ask);
    var reply := Reply(t, x, z, trust);
    steps := ask + reply;
    JoinRounds(s, ask, reply, x, z);
  }

  lemma RoundKeepsOn(s: Net, t: Net, u: Net, x: Id)
    requires Shaped(s) && Shaped(t) && Shaped(u) && RoundKeeps(s, t, x) && RoundKeeps(t, u, x)
    ensures RoundKeeps(s, u, x)
  {
    forall w: Id ensures u.nodes[w].obs == s.nodes[w].obs && u.nodes[w].own == s.nodes[w].own {
      assert t.nodes[w].obs == s.nodes[w].obs;
    }
    forall w: Id ensures u.links[(x, w)].reportsSent == s.links[(x, w)].reportsSent
                         && u.links[(x, w)].reportsGot == s.links[(x, w)].reportsGot {
      assert t.links[(x, w)].reportsSent == s.links[(x, w)].reportsSent;
    }
  }

  /** The votes of some routers on x, and nothing of the others. */
  ghost function Ballots(s: Net, x: Id, near: set<Id>): (v: seq<nat>)
    requires Shaped(s)
    ensures |v| == ROUTERS && forall z: Id :: v[z] == if z in near then VoteOn(s, z, x) else 0
  {
    seq(ROUTERS, z requires 0 <= z < ROUTERS => if z in near then VoteOn(s, z, x) else 0)
  }

  lemma BallotsAdd(s: Net, x: Id, near: set<Id>, z: Id)
    requires Shaped(s) && z in near
    ensures Ballots(s, x, near - {z})[z := VoteOn(s, z, x)] == Ballots(s, x, near)
  {
    var a, b := Ballots(s, x, near - {z})[z := VoteOn(s, z, x)], Ballots(s, x, near);
    forall i | 0 <= i < ROUTERS ensures a[i] == b[i] {
      var w: Id := i;
      assert w in near - {z} <==> w in near && w != z;
    }
  }

  /** Polling the routers of a set one after the other. */
  lemma {:induction false} PollAll(s: Net, x: Id, near: set<Id>, trust: nat) returns (steps: seq<Step>)
    requires Shaped(s) && s.nodes[x].votes == Zeros() && 1 in s.nodes[x].requests
    requires x !in near && |near| <= s.nodes[x].neighbors
    requires forall z :: z in near ==> VoteOn(s, z, x) != 0
    ensures var t := At(s, steps); RoundKeeps(s, t, x) && t.nodes[x].votes == Ballots(s, x, near)
    decreases |near|
  {
    if near == {} {
      steps := [];
      assert Ballots(s, x, near) == Zeros();
    } else {
      var z :| z in near;
      var first := PollAll(s, x, near - {z}, trust);
      VotesCounted(Ballots(s, x, near - {z}), near - {z});
      steps := PollMore(s, first, x, z, trust);
      BallotsAdd(s, x, near, z);
    }
  }

  lemma PollMore(s: Net, first: seq<Step>, x: Id, z: Id, trust: nat) returns (steps: seq<Step>)
    requires Shaped(s) && x != z && RoundKeeps(s, At(s, first), x)
    requires NonZero(At(s, first).nodes[x].votes) != s.nodes[x].neighbors && 1 in s.nodes[x].requests
    ensures var t := At(s, steps);
      RoundKeeps(s, t, x) && t.nodes[x].votes == At(s, first).nodes[x].votes[z := VoteOn(s, z, x)]
  {
    var t := At(s, first);
    var more := PollOne(t, x, z, trust);
    steps := first + more;
    JoinRounds(s, first, more, x, z);
  }

  /**
   * A round of voting succeeds: while a request of y waits at x, whose neighbours all have a vote other than zero to
   * give, there is a run in which each is asked and answers, and y gets a report of exactly their votes.
   */
  lemma RoundReports(s: Net, x: Id, y: Id, near: set<Id>, trust: nat) returns (steps: seq<Step>)
    requires Shaped(s) && s.nodes[x].votes == Zeros() && s.nodes[x].requests[y] == 1
    requires x !in near && |near| == s.nodes[x].neighbors
    requires forall z :: z in near ==> VoteOn(s, z, x) != 0
    ensures var l := At(s, steps).links[(x, y)]; var r := Ballots(s, x, near);
      && l.reportsSent == s.links[(x, y)].reportsSent + [r]
      && l.reportsGot == s.links[(x, y)].reportsGot + [r]
  {
    assert s.nodes[x].requests[y] in s.nodes[x].requests;
    var polls := PollAll(s, x, near, trust);
    var t := At(s, polls);
    VotesCounted(Ballots(s, x, near), near);
    assert t.links[(x, y)].reportsSent == s.links[(x, y)].reportsSent;
    var last := Deliverance(t, x, y, trust);
    steps := polls + last;
    AtConcat(s, polls, last);
  }

  /** A full set of votes is reported by the next keepalive, and the report arrives. */
  lemma Deliverance(s: Net, x: Id, y: Id, trust: nat) returns (steps: seq<Step>)
    requires Shaped(s) && s.nodes[x].requests[y] == 1 && NonZero(s.nodes[x].votes) == s.nodes[x].neighbors
    ensures var l, l' := s.links[(x, y)], At(s, steps).links[(x, y)];
      && l'.reportsSent == l.reportsSent + [s.nodes[x].votes] && l'.reportsGot == l.reportsGot + [s.nodes[x].votes]
  {
    var e, e' := Alive(x, y, trust), Delivered(x, y, |s.links[(x, y)].flight| + 2);
    TakeShaped(s, e);
    ReportGoesOut(s, x, y, trust);
    steps := [e, e'];
    AtTwo(s, e, e');
  }

  lemma ReportGoesOut(s: Net, x: Id, y: Id, trust: nat)
    requires Shaped(s) && s.nodes[x].requests[y] == 1 && NonZero(s.nodes[x].votes) == s.nodes[x].neighbors
    requires Shaped(Take(s, Alive(x, y, trust)))
    ensures var l, l' := s.links[(x, y)], Take(s, Alive(x, y, trust)).links[(x, y)];
      && l'.reportsSent == l.reportsSent + [s.nodes[x].votes] && l'.reportsGot == l.reportsGot
      && |l.flight| + 2 < |l'.flight| && l'.flight[|l.flight| + 2] == Report(s.nodes[x].votes)
  {
    AliveStep(s, x, y, trust);
    var c := Collect(s.nodes[x], y);
    EmitFour(s.links[(x, y)], trust, c.1, Answer(c.0, y).1);
    EmitReports(s.links[(x, y)], trust, c.1, Answer(c.0, y).1);
  }
}
