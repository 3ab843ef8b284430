/** The trust-voting exchange carried by keepalives, as a protocol between ten routers. */
module Voting {
  import Trust

  const ROUTERS := 10

  type Id = n: nat | n < ROUTERS

  datatype Msg =
    | TrustValue(v: nat)
    | PeersRequest
    | VoteRequest
    | VoteResponse(v: nat)
    | Report(votes: seq<nat>)

  /** What a router keeps in its files: one entry per AS, and how many neighbours it has. */
  datatype Node =
    Node(neighbors: nat, votes: seq<nat>, requests: seq<nat>, responses: seq<nat>, obs: seq<nat>, own: seq<nat>)

  predicate Flags(s: seq<nat>) {
    |s| == ROUTERS && forall i :: 0 <= i < ROUTERS ==> s[i] <= 1
  }

  predicate WellFormed(n: Node) {
    |n.votes| == ROUTERS && Flags(n.requests) && Flags(n.responses) && |n.obs| == ROUTERS && |n.own| == ROUTERS
  }

  function NonZero(s: seq<nat>): nat {
    if s == [] then 0 else NonZero(s[..|s| - 1]) + if s[|s| - 1] != 0 then 1 else 0
  }

  function Zeros(): (s: seq<nat>)
    ensures |s| == ROUTERS && forall i :: 0 <= i < ROUTERS ==> s[i] == 0
  {
    seq(ROUTERS, _ => 0)
  }

  /** Report the votes to a requester once all are in, or ask a neighbour for its vote while some requester waits. */
  function Collect(n: Node, y: Id): (r: (Node, seq<Msg>))
    requires WellFormed(n)
    ensures WellFormed(r.0)
  {
    if NonZero(n.votes) == n.neighbors then
      if n.requests[y] == 1 then
        var rs := n.requests[y := 0];
        (n.(requests := rs, votes := if NonZero(rs) == 0 then Zeros() else n.votes), [Report(n.votes)])
      else (n, [])
    else (n, if 1 in n.requests then [VoteRequest] else [])
  }

  /** Answer a neighbour's vote request with the trust held in it. */
  function Answer(n: Node, y: Id): (r: (Node, seq<Msg>))
    requires WellFormed(n)
    ensures WellFormed(r.0)
  {
    if n.responses[y] == 1 then
      (n.(responses := n.responses[y := 0]), [VoteResponse((n.obs[y] + n.own[y]) % 0x10000)])
    else (n, [])
  }

  /** What a router keeps after a message from x. */
  function Handle(n: Node, x: Id, m: Msg): (r: Node)
    requires WellFormed(n)
    ensures WellFormed(r)
  {
    match m
    case TrustValue(v) => n.(obs := n.obs[x := Trust.Average(n.obs[x], v)])
    case PeersRequest => if n.neighbors > 1 then n.(requests := n.requests[x := 1]) else n
    case VoteRequest => n.(responses := n.responses[x := 1])
    case VoteResponse(v) => n.(votes := n.votes[x := v])
    case Report(_) => n
  }

  /** One direction of a session: what is in flight, and what has passed over it so far. */
  datatype Link = Link(
    flight: seq<Msg>,
    requestsGot: nat,
    voteRequestsSent: nat,
    voteRequestsGot: nat,
    votesSent: seq<nat>,
    votesGot: nat,
    reportsSent: seq<seq<nat>>,
    reportsGot: seq<seq<nat>>)

  function Emit(l: Link, m: Msg): Link {
    var f := l.(flight := l.flight + [m]);
    match m
    case VoteRequest => f.(voteRequestsSent := l.voteRequestsSent + 1)
    case VoteResponse(v) => f.(votesSent := l.votesSent + [v])
    case Report(r) => f.(reportsSent := l.reportsSent + [r])
    case _ => f
  }

  function Without(f: seq<Msg>, k: nat): seq<Msg>
    requires k < |f|
  {
    f[..k] + f[k + 1..]
  }

  /** The link after message k is lost. */
  function Drop(l: Link, k: nat): Link
    requires k < |l.flight|
  {
    l.(flight := Without(l.flight, k))
  }

  /** The link after message k arrives. */
  function Arrive(l: Link, k: nat): Link
    requires k < |l.flight|
  {
    var d := Drop(l, k);
    match l.flight[k]
    case PeersRequest => d.(requestsGot := l.requestsGot + 1)
    case VoteRequest => d.(voteRequestsGot := l.voteRequestsGot + 1)
    case VoteResponse(_) => d.(votesGot := l.votesGot + 1)
    case Report(r) => d.(reportsGot := l.reportsGot + [r])
    case TrustValue(_) => d
  }

  /** The whole network: every router, and every ordered pair's link. */
  datatype Net = Net(nodes: map<Id, Node>, links: map<(Id, Id), Link>)

  ghost predicate Shaped(s: Net) {
    && (forall x: Id :: x in s.nodes && WellFormed(s.nodes[x]))
    && (forall x: Id, y: Id :: (x, y) in s.links)
  }

  function Count(f: seq<Msg>, votes: bool): nat {
    if f == [] then 0 else
    Count(f[..|f| - 1], votes) + if (if votes then f[|f| - 1].VoteResponse? else f[|f| - 1].VoteRequest?) then 1 else 0
  }

  lemma {:induction false} CountConcat(f: seq<Msg>, g: seq<Msg>, votes: bool)
    ensures Count(f + g, votes) == Count(f, votes) + Count(g, votes)
  {
    if g == [] {
      assert f + g == f;
    } else {
      assert (f + g)[..|f + g| - 1] == f + g[..|g| - 1];
      CountConcat(f, g[..|g| - 1], votes);
    }
  }

  lemma CountWithout(f: seq<Msg>, k: nat, votes: bool)
    requires k < |f|
    ensures Count(f, votes) == Count(Without(f, k), votes) + Count([f[k]], votes)
  {
    assert f == f[..k] + ([f[k]] + f[k + 1..]);
    CountConcat(f[..k], [f[k]] + f[k + 1..], votes);
    CountConcat([f[k]], f[k + 1..], votes);
    CountConcat(f[..k], f[k + 1..], votes);
  }

  /** A report holds as many votes as its sender has neighbours, more than one, each one that neighbour had sent it. */
  ghost predicate Honest(s: Net, x: Id, r: seq<nat>)
    requires Shaped(s)
  {
    && |r| == ROUTERS && NonZero(r) == s.nodes[x].neighbors > 1
    && forall z: Id :: r[z] != 0 ==> r[z] in s.links[(z, x)].votesSent
  }

  /** Nothing arrives on a link that was not sent on it. */
  ghost predicate Flow(l: Link) {
    && Count(l.flight, false) + l.voteRequestsGot <= l.voteRequestsSent
    && Count(l.flight, true) + l.votesGot <= |l.votesSent|
    && forall m :: m in l.flight && m.VoteResponse? ==> m.v in l.votesSent
  }

  /** Router x owes y no more reports and votes than y asked for. */
  ghost predicate Owed(s: Net, x: Id, y: Id)
    requires Shaped(s)
  {
    && |s.links[(x, y)].reportsSent| + s.nodes[x].requests[y] <= s.links[(y, x)].requestsGot
    && |s.links[(x, y)].votesSent| + s.nodes[x].responses[y] <= s.links[(y, x)].voteRequestsGot
    && (s.nodes[x].requests[y] == 1 ==> s.nodes[x].neighbors > 1)
  }

  /** The votes y holds were sent to it, the reports on the way from x or arrived were sent, and those are honest. */
  ghost predicate Backed(s: Net, x: Id, y: Id)
    requires Shaped(s)
  {
    && (s.nodes[y].votes[x] != 0 ==> s.nodes[y].votes[x] in s.links[(x, y)].votesSent)
    && (forall m :: m in s.links[(x, y)].flight && m.Report? ==> m.votes in s.links[(x, y)].reportsSent)
    && (forall r :: r in s.links[(x, y)].reportsGot ==> r in s.links[(x, y)].reportsSent)
    && (forall r :: r in s.links[(x, y)].reportsSent ==> Honest(s, x, r))
  }

  ghost predicate Inv(s: Net) {
    && Shaped(s)
    && (forall x: Id, y: Id {:trigger s.links[(x, y)]} :: Flow(s.links[(x, y)]))
    && (forall x: Id, y: Id {:trigger Owed(s, x, y)} :: Owed(s, x, y))
    && (forall x: Id, y: Id {:trigger Backed(s, x, y)} :: Backed(s, x, y))
  }

  /** Router x moves to a new state and hands messages to its link to y. */
  function Post(s: Net, x: Id, y: Id, r: (Node, seq<Msg>)): Net
    requires (x, y) in s.links && |r.1| <= 1
  {
    Net(s.nodes[x := r.0], if r.1 == [] then s.links else s.links[(x, y) := Emit(s.links[(x, y)], r.1[0])])
  }

  /** The votes handed to a neighbour so far are only ever added to. */
  ghost predicate Grows(s: Net, t: Net)
    requires Shaped(s) && Shaped(t)
  {
    && (forall x: Id {:trigger t.nodes[x]} :: t.nodes[x].neighbors == s.nodes[x].neighbors)
    && (forall z: Id, x: Id {:trigger t.links[(z, x)]} :: s.links[(z, x)].votesSent <= t.links[(z, x)].votesSent)
  }

  lemma HonestGrows(s: Net, t: Net, x: Id, r: seq<nat>)
    requires Shaped(s) && Shaped(t) && Grows(s, t) && Honest(s, x, r)
    ensures Honest(t, x, r)
  {
    forall z: Id | r[z] != 0 ensures r[z] in t.links[(z, x)].votesSent {
      assert s.links[(z, x)].votesSent <= t.links[(z, x)].votesSent;
    }
  }

  /** A router's move towards y answers no more than y asked for and forgets votes rather than inventing them. */
  ghost predicate Fair(s: Net, x: Id, y: Id, r: (Node, seq<Msg>))
    requires Shaped(s)
  {
    var n := s.nodes[x];
    && WellFormed(r.0) && |r.1| <= 1 && r.0.neighbors == n.neighbors
    && (forall z: Id :: z != y ==> r.0.requests[z] == n.requests[z] && r.0.responses[z] == n.responses[z])
    && r.0.requests[y] + (if r.1 != [] && r.1[0].Report? then 1 else 0) <= n.requests[y]
    && r.0.responses[y] + (if r.1 != [] && r.1[0].VoteResponse? then 1 else 0) <= n.responses[y]
    && (forall z: Id :: r.0.votes[z] == n.votes[z] || r.0.votes[z] == 0)
    && (r.1 != [] && r.1[0].Report? ==> Honest(s, x, r.1[0].votes))
  }

  lemma EmitFlow(l: Link, m: Msg)
    requires Flow(l)
    ensures Flow(Emit(l, m))
  {
    CountConcat(l.flight, [m], false);
    CountConcat(l.flight, [m], true);
    assert Count([m], false) == if m.VoteRequest? then 1 else 0 by { assert [m][..0] == []; }
    assert Count([m], true) == if m.VoteResponse? then 1 else 0 by { assert [m][..0] == []; }
  }

  lemma ArriveFlow(l: Link, k: nat)
    requires Flow(l) && k < |l.flight|
    ensures Flow(Arrive(l, k)) && Flow(Drop(l, k))
  {
    var m := l.flight[k];
    CountWithout(l.flight, k, false);
    CountWithout(l.flight, k, true);
    assert Count([m], false) == if m.VoteRequest? then 1 else 0 by { assert [m][..0] == []; }
    assert Count([m], true) == if m.VoteResponse? then 1 else 0 by { assert [m][..0] == []; }
  }

  lemma PostShape(s: Net, x: Id, y: Id, r: (Node, seq<Msg>))
    requires Shaped(s) && Fair(s, x, y, r)
    ensures Shaped(Post(s, x, y, r)) && Grows(s, Post(s, x, y, r))
  {
  }

  lemma PostOwed(s: Net, x: Id, y: Id, r: (Node, seq<Msg>), a: Id, b: Id)
    requires Shaped(s) && Fair(s, x, y, r) && Owed(s, a, b)
    ensures Shaped(Post(s, x, y, r)) && Owed(Post(s, x, y, r), a, b)
  {
  }

  lemma PostBacked(s: Net, x: Id, y: Id, r: (Node, seq<Msg>), a: Id, b: Id)
    requires Shaped(s) && Fair(s, x, y, r) && Backed(s, a, b)
    ensures Shaped(Post(s, x, y, r)) && Backed(Post(s, x, y, r), a, b)
  {
    var t := Post(s, x, y, r);
    PostShape(s, x, y, r);
    forall q | q in t.links[(a, b)].reportsSent ensures Honest(t, a, q) {
      HonestGrows(s, t, a, q);
    }
  }

  lemma PostKeeps(s: Net, x: Id, y: Id, r: (Node, seq<Msg>))
    requires Inv(s) && Fair(s, x, y, r)
    ensures Inv(Post(s, x, y, r))
  {
    var t := Post(s, x, y, r);
    PostShape(s, x, y, r);
    assert Flow(s.links[(x, y)]);
    if r.1 != [] {
      EmitFlow(s.links[(x, y)], r.1[0]);
    }
    forall a: Id, b: Id ensures Owed(t, a, b) {
      assert Owed(s, a, b);
      PostOwed(s, x, y, r, a, b);
    }
    forall a: Id, b: Id ensures Backed(t, a, b) {
      assert Backed(s, a, b);
      PostBacked(s, x, y, r, a, b);
    }
  }

  /** The network after message k on the link from x to y arrives. */
  function Deliver(s: Net, x: Id, y: Id, k: nat): Net
    requires (x, y) in s.links && y in s.nodes && WellFormed(s.nodes[y]) && k < |s.links[(x, y)].flight|
  {
    var l := s.links[(x, y)];
    Net(s.nodes[y := Handle(s.nodes[y], x, l.flight[k])], s.links[(x, y) := Arrive(l, k)])
  }

  lemma DeliverShape(s: Net, x: Id, y: Id, k: nat)
    requires Shaped(s) && k < |s.links[(x, y)].flight|
    ensures Shaped(Deliver(s, x, y, k)) && Grows(s, Deliver(s, x, y, k))
  {
  }

  lemma DeliverOwed(s: Net, x: Id, y: Id, k: nat, a: Id, b: Id)
    requires Shaped(s) && k < |s.links[(x, y)].flight| && Owed(s, a, b)
    ensures Shaped(Deliver(s, x, y, k)) && Owed(Deliver(s, x, y, k), a, b)
  {
  }

  lemma DeliverBacked(s: Net, x: Id, y: Id, k: nat, a: Id, b: Id)
    requires Shaped(s) && k < |s.links[(x, y)].flight| && Flow(s.links[(x, y)]) && Backed(s, a, b)
    ensures Shaped(Deliver(s, x, y, k)) && Backed(Deliver(s, x, y, k), a, b)
  {
    var t := Deliver(s, x, y, k);
    DeliverShape(s, x, y, k);
    assert s.links[(x, y)].flight[k] in s.links[(x, y)].flight;
    forall q | q in t.links[(a, b)].reportsSent ensures Honest(t, a, q) {
      HonestGrows(s, t, a, q);
    }
  }

  lemma DeliverKeeps(s: Net, x: Id, y: Id, k: nat)
    requires Inv(s) && k < |s.links[(x, y)].flight|
    ensures Inv(Deliver(s, x, y, k))
  {
    var t := Deliver(s, x, y, k);
    DeliverShape(s, x, y, k);
    assert Flow(s.links[(x, y)]);
    ArriveFlow(s.links[(x, y)], k);
    forall a: Id, b: Id ensures Owed(t, a, b) {
      assert Owed(s, a, b);
      DeliverOwed(s, x, y, k, a, b);
    }
    forall a: Id, b: Id ensures Backed(t, a, b) {
      assert Backed(s, a, b);
      DeliverBacked(s, x, y, k, a, b);
    }
  }

  /** Router x sends y its trust value, a request for y's neighbours' votes, and whatever it owes y. */
  ghost function Keepalive(s: Net, x: Id, y: Id, trust: nat): Net
    requires Shaped(s)
  {
    var s1 := Post(s, x, y, (s.nodes[x], [TrustValue(trust)]));
    var s2 := Post(s1, x, y, (s1.nodes[x], [PeersRequest]));
    var s3 := Post(s2, x, y, Collect(s2.nodes[x], y));
    Post(s3, x, y, Answer(s3.nodes[x], y))
  }

  lemma CollectFair(s: Net, x: Id, y: Id)
    requires Inv(s)
    ensures Fair(s, x, y, Collect(s.nodes[x], y))
  {
    forall z: Id | s.nodes[x].votes[z] != 0 ensures s.nodes[x].votes[z] in s.links[(z, x)].votesSent {
      assert Backed(s, z, x);
    }
    assert Owed(s, x, y);
  }

  lemma KeepaliveKeeps(s: Net, x: Id, y: Id, trust: nat)
    requires Inv(s)
    ensures Inv(Keepalive(s, x, y, trust))
  {
    PostKeeps(s, x, y, (s.nodes[x], [TrustValue(trust)]));
    var s1 := Post(s, x, y, (s.nodes[x], [TrustValue(trust)]));
    PostKeeps(s1, x, y, (s1.nodes[x], [PeersRequest]));
    var s2 := Post(s1, x, y, (s1.nodes[x], [PeersRequest]));
    CollectFair(s2, x, y);
    PostKeeps(s2, x, y, Collect(s2.nodes[x], y));
    var s3 := Post(s2, x, y, Collect(s2.nodes[x], y));
    PostKeeps(s3, x, y, Answer(s3.nodes[x], y));
  }

  lemma LoseKeeps(s: Net, x: Id, y: Id, k: nat)
    requires Inv(s) && k < |s.links[(x, y)].flight|
    ensures Inv(s.(links := s.links[(x, y) := Drop(s.links[(x, y)], k)]))
  {
    var t := s.(links := s.links[(x, y) := Drop(s.links[(x, y)], k)]);
    assert Flow(s.links[(x, y)]);
    ArriveFlow(s.links[(x, y)], k);
    assert Grows(s, t);
    forall a: Id, b: Id ensures Owed(t, a, b) {
      assert Owed(s, a, b);
    }
    forall a: Id, b: Id ensures Backed(t, a, b) {
      assert Backed(s, a, b);
      forall q | q in t.links[(a, b)].reportsSent ensures Honest(t, a, q) {
        HonestGrows(s, t, a, q);
      }
    }
  }

  /** A keepalive is sent, or some message in flight arrives or is lost. */
  datatype Step =
    | Alive(x: Id, y: Id, trust: nat)
    | Delivered(x: Id, y: Id, k: nat)
    | Lost(x: Id, y: Id, k: nat)

  /** A step naming a message that is not in flight does nothing. */
  ghost function Take(s: Net, e: Step): Net
    requires Shaped(s)
  {
    match e
    case Alive(x, y, trust) => Keepalive(s, x, y, trust)
    case Delivered(x, y, k) => if k < |s.links[(x, y)].flight| then Deliver(s, x, y, k) else s
    case Lost(x, y, k) =>
      if k < |s.links[(x, y)].flight| then s.(links := s.links[(x, y) := Drop(s.links[(x, y)], k)]) else s
  }

  lemma TakeKeeps(s: Net, e: Step)
    requires Inv(s)
    ensures Inv(Take(s, e))
  {
    match e {
      case Alive(x, y, trust) => KeepaliveKeeps(s, x, y, trust);
      case Delivered(x, y, k) =>
        if k < |s.links[(x, y)].flight| { DeliverKeeps(s, x, y, k); }
      case Lost(x, y, k) =>
        if k < |s.links[(x, y)].flight| { LoseKeeps(s, x, y, k); }
    }
  }

  /** Files of zeroes, and nothing in flight. */
  ghost predicate Initial(s: Net) {
    && Shaped(s)
    && (forall x: Id {:trigger s.nodes[x]} ::
          s.nodes[x].votes == Zeros() && s.nodes[x].requests == Zeros() && s.nodes[x].responses == Zeros())
    && (forall x: Id, y: Id {:trigger s.links[(x, y)]} :: s.links[(x, y)] == Link([], 0, 0, 0, [], 0, [], []))
  }

  lemma InitialInv(s: Net)
    requires Initial(s)
    ensures Inv(s)
  {
  }

  ghost predicate Reaches(s: Net, steps: seq<Step>, t: Net)
    decreases |steps|
  {
    Shaped(s) && if steps == [] then s == t else Reaches(Take(s, steps[0]), steps[1..], t)
  }

  lemma {:induction false} RunKeeps(s: Net, steps: seq<Step>, t: Net)
    requires Inv(s) && Reaches(s, steps, t)
    ensures Inv(t)
    decreases |steps|
  {
    if steps != [] {
      TakeKeeps(s, steps[0]);
      RunKeeps(Take(s, steps[0]), steps[1..], t);
    }
  }

  /**
   * In every run from the initial files: x sends y no more reports than y asked it for, y gets no more votes from x
   * than it asked x for, and every report y got from x holds exactly as many votes as x has neighbours, never just
   * one, each of them a value that neighbour sent to x.
   */
  lemma VotingSafe(s: Net, steps: seq<Step>, t: Net, x: Id, y: Id)
    requires Initial(s) && Reaches(s, steps, t)
    ensures Shaped(t)
    ensures |t.links[(x, y)].reportsSent| <= t.links[(y, x)].requestsGot
    ensures t.links[(x, y)].votesGot <= t.links[(y, x)].voteRequestsSent
    ensures forall r :: r in t.links[(x, y)].reportsGot ==> Honest(t, x, r)
  {
    InitialInv(s);
    RunKeeps(s, steps, t);
    assert Owed(t, x, y) && Backed(t, x, y);
    assert Flow(t.links[(x, y)]) && Flow(t.links[(y, x)]);
  }

  /** The routers that sent x a vote other than zero. */
  ghost function Voters(t: Net, x: Id): set<Id>
    requires Shaped(t)
  {
    set z: Id | exists v :: v in t.links[(z, x)].votesSent && v != 0
  }

  function Marks(r: seq<nat>, n: nat): set<Id>
    requires n <= |r| == ROUTERS
  {
    set z: Id | z < n && r[z] != 0
  }

  lemma {:induction false} NonZeroMarks(r: seq<nat>, n: nat)
    requires n <= |r| == ROUTERS
    ensures NonZero(r[..n]) == |Marks(r, n)|
  {
    if n == 0 {
      assert Marks(r, 0) == {};
    } else {
      NonZeroMarks(r, n - 1);
      NonZeroSnoc(r, n - 1);
      var last: Id := n - 1;
      assert Marks(r, n) == Marks(r, n - 1) + if r[last] != 0 then {last} else {};
    }
  }

  lemma SubsetSize(a: set<Id>, b: set<Id>)
    requires a <= b
    ensures |a| <= |b|
  {
    assert b == a + (b - a);
  }

  /** A router that has ever sent a report had votes other than zero from as many routers as it has neighbours. */
  lemma VotersNeeded(s: Net, steps: seq<Step>, t: Net, x: Id, y: Id)
    requires Initial(s) && Reaches(s, steps, t)
    ensures Shaped(t)
    ensures t.links[(x, y)].reportsSent != [] ==> |Voters(t, x)| >= t.nodes[x].neighbors > 1
  {
    InitialInv(s);
    RunKeeps(s, steps, t);
    assert Backed(t, x, y);
    if t.links[(x, y)].reportsSent != [] {
      var r := t.links[(x, y)].reportsSent[0];
      assert r in t.links[(x, y)].reportsSent && Honest(t, x, r);
      NonZeroMarks(r, ROUTERS);
      assert r[..ROUTERS] == r;
      assert Marks(r, ROUTERS) <= Voters(t, x);
      SubsetSize(Marks(r, ROUTERS), Voters(t, x));
    }
  }

  /**
   * A vote of zero does not count as one: when x gets votes from its neighbours only, and one of them has sent it
   * nothing but zeroes, x has answered no request, however many are waiting.
   */
  lemma ZeroVoteStarves(s: Net, steps: seq<Step>, t: Net, x: Id, y: Id, near: set<Id>, z: Id)
    requires Initial(s) && Reaches(s, steps, t) && Shaped(t)
    requires |near| == t.nodes[x].neighbors && z in near
    requires forall w: Id :: w !in near ==> t.links[(w, x)].votesSent == []
    requires forall v :: v in t.links[(z, x)].votesSent ==> v == 0
    ensures t.links[(x, y)].reportsSent == []
  {
    VotersNeeded(s, steps, t, x, y);
    assert Voters(t, x) <= near - {z};
    SubsetSize(Voters(t, x), near - {z});
  }

  /** Exactly when a keepalive to y reports: y's request waits, and there are as many votes as neighbours. */
  lemma ReportDue(s: Net, x: Id, y: Id, trust: nat)
    requires Shaped(s)
    ensures var n := s.nodes[x];
      Keepalive(s, x, y, trust).links[(x, y)].reportsSent == s.links[(x, y)].reportsSent +
      if n.requests[y] == 1 && NonZero(n.votes) == n.neighbors then [n.votes] else []
  {
  }

  lemma {:induction false} NonZeroNone(s: seq<nat>)
    ensures NonZero(s) == 0 <==> forall i :: 0 <= i < |s| ==> s[i] == 0
  {
    if s != [] {
      NonZeroNone(s[..|s| - 1]);
      assert forall i :: 0 <= i < |s| - 1 ==> s[..|s| - 1][i] == s[i];
    }
  }

  lemma NonZeroSnoc(s: seq<nat>, i: nat)
    requires i < |s|
    ensures NonZero(s[..i + 1]) == NonZero(s[..i]) + if s[i] != 0 then 1 else 0
  {
    assert s[..i + 1][..i] == s[..i];
  }

  /** A router over its files. */
  class Router {
    const neighbors: nat
    const votes: array<nat>
    const requests: array<nat>
    const responses: array<nat>
    const obs: array<nat>
    const own: array<nat>

    constructor (n: nat, obsTrust: array<nat>, ownTrust: array<nat>)
      requires obsTrust.Length == ROUTERS && ownTrust.Length == ROUTERS && obsTrust != ownTrust
      requires forall i :: 0 <= i < ROUTERS ==> obsTrust[i] < 0x10000
      ensures Valid() && neighbors == n && obs == obsTrust && own == ownTrust
      ensures fresh(votes) && fresh(requests) && fresh(responses)
      ensures votes[..] == Zeros() && requests[..] == Zeros() && responses[..] == Zeros()
    {
      neighbors := n;
      obs, own := obsTrust, ownTrust;
      votes := new nat[ROUTERS](_ => 0);
      requests := new nat[ROUTERS](_ => 0);
      responses := new nat[ROUTERS](_ => 0);
    }

    ghost predicate Valid()
      reads this, votes, requests, responses, obs, own
    {
      && votes.Length == requests.Length == responses.Length == obs.Length == own.Length == ROUTERS
      && votes != requests && votes != responses && votes != obs && votes != own && requests != responses
      && requests != obs && requests != own && responses != obs && responses != own && obs != own
      && Flags(requests[..]) && Flags(responses[..])
      && forall i :: 0 <= i < ROUTERS ==> obs[i] < 0x10000
    }

    ghost function View(): Node
      reads this, votes, requests, responses, obs, own
    {
      Node(neighbors, votes[..], requests[..], responses[..], obs[..], own[..])
    }

    static method CountVotes(a: array<nat>) returns (n: nat)
      ensures n == NonZero(a[..])
    {
      n := 0;
      for i := 0 to a.Length
        invariant n == NonZero(a[..i])
      {
        NonZeroSnoc(a[..], i);
        assert a[..][..i + 1] == a[..i + 1] && a[..][..i] == a[..i];
        if a[i] != 0 {
          n := n + 1;
        }
      }
      assert a[..a.Length] == a[..];
    }

    static method AnyRequest(a: array<nat>) returns (b: bool)
      ensures b <==> 1 in a[..]
    {
      b := false;
      for i := 0 to a.Length
        invariant b <==> 1 in a[..i]
      {
        assert a[..i + 1] == a[..i] + [a[i]];
        if a[i] == 1 {
          b := true;
        }
      }
      assert a[..a.Length] == a[..];
    }

    static method NoneLeft(a: array<nat>) returns (b: bool)
      ensures b <==> NonZero(a[..]) == 0
    {
      b := true;
      for i := 0 to a.Length
        invariant b <==> forall k :: 0 <= k < i ==> a[k] == 0
      {
        if a[i] != 0 {
          b := false;
        }
      }
      NonZeroNone(a[..]);
    }

    method SendCollected(y: Id) returns (ms: seq<Msg>)
      requires Valid()
      modifies votes, requests
      ensures Valid() && (View(), ms) == Collect(old(View()), y)
    {
      ms := [];
      var n := CountVotes(votes);
      if n == neighbors {
        if requests[y] == 1 {
          ms := [Report(votes[..])];
          requests[y] := 0;
          assert requests[..] == old(requests[..])[y := 0];
          var b := NoneLeft(requests);
          if b {
            for i := 0 to ROUTERS
              invariant forall k :: 0 <= k < i ==> votes[k] == 0
              invariant requests[..] == old(requests[..])[y := 0]
              modifies votes
            {
              votes[i] := 0;
            }
            assert votes[..] == Zeros();
          }
        }
      } else {
        var b := AnyRequest(requests);
        if b {
          ms := [VoteRequest];
        }
      }
    }

    method SendVote(y: Id) returns (ms: seq<Msg>)
      requires Valid()
      modifies responses
      ensures Valid() && (View(), ms) == Answer(old(View()), y)
    {
      ms := [];
      if responses[y] == 1 {
        ms := [VoteResponse((obs[y] + own[y]) % 0x10000)];
        responses[y] := 0;
        assert responses[..] == old(responses[..])[y := 0];
      }
    }

    /** What a keepalive to y hands to its link, in order. */
    method SendKeepalive(y: Id, trust: nat) returns (ms: seq<Msg>)
      requires Valid()
      modifies votes, requests, responses
      ensures Valid()
      ensures var c := Collect(old(View()), y); var a := Answer(c.0, y);
        View() == a.0 && ms == [TrustValue(trust), PeersRequest] + c.1 + a.1
    {
      var c := SendCollected(y);
      var a := SendVote(y);
      ms := [TrustValue(trust), PeersRequest] + c + a;
    }

    method Receive(x: Id, m: Msg)
      requires Valid() && (m.TrustValue? ==> m.v < 0x10000)
      modifies votes, requests, responses, obs
      ensures Valid() && View() == Handle(old(View()), x, m)
    {
      match m {
        case TrustValue(v) =>
          obs[x] := (obs[x] * 9 + v) / 10 % 0x10000;
          assert obs[..] == old(obs[..])[x := Trust.Average(old(obs[x]), v)];
        case PeersRequest =>
          if neighbors > 1 {
            requests[x] := 1;
            assert requests[..] == old(requests[..])[x := 1];
          }
        case VoteRequest =>
          responses[x] := 1;
          assert responses[..] == old(responses[..])[x := 1];
        case VoteResponse(v) =>
          votes[x] := v;
          assert votes[..] == old(votes[..])[x := v];
        case Report(_) =>
      }
    }
  }

  function EmitAll(l: Link, ms: seq<Msg>): Link
    decreases |ms|
  {
    if ms == [] then l else EmitAll(Emit(l, ms[0]), ms[1..])
  }

  lemma {:induction false} EmitAllConcat(l: Link, ms: seq<Msg>, ns: seq<Msg>)
    ensures EmitAll(l, ms + ns) == EmitAll(EmitAll(l, ms), ns)
    decreases |ms|
  {
    if ms == [] {
      assert ms + ns == ns;
    } else {
      assert (ms + ns)[1..] == ms[1..] + ns;
      EmitAllConcat(Emit(l, ms[0]), ms[1..], ns);
    }
  }

  function PostAll(s: Net, x: Id, y: Id, n: Node, ms: seq<Msg>): Net
    requires (x, y) in s.links
  {
    Net(s.nodes[x := n], s.links[(x, y) := EmitAll(s.links[(x, y)], ms)])
  }

  lemma PostAfter(s: Net, x: Id, y: Id, n: Node, ms: seq<Msg>, r: (Node, seq<Msg>))
    requires (x, y) in s.links && |r.1| <= 1
    ensures Post(PostAll(s, x, y, n, ms), x, y, r) == PostAll(s, x, y, r.0, ms + r.1)
  {
    var l := EmitAll(s.links[(x, y)], ms);
    EmitAllConcat(s.links[(x, y)], ms, r.1);
    assert r.1 != [] ==> r.1[1..] == [];
    assert EmitAll(l, r.1) == if r.1 == [] then l else Emit(l, r.1[0]);
  }

  /** The network's keepalive step is the router's: its new files, and its messages on the link. */
  lemma KeepaliveStep(s: Net, x: Id, y: Id, trust: nat)
    requires Shaped(s)
    ensures var c := Collect(s.nodes[x], y);
            var a := Answer(c.0, y);
            Keepalive(s, x, y, trust) == PostAll(s, x, y, a.0, [TrustValue(trust), PeersRequest] + c.1 + a.1)
  {
    var n, ms := s.nodes[x], [TrustValue(trust), PeersRequest];
    var c := Collect(n, y);
    assert s == PostAll(s, x, y, n, []);
    PostAfter(s, x, y, n, [], (n, [TrustValue(trust)]));
    PostAfter(s, x, y, n, [TrustValue(trust)], (n, [PeersRequest]));
    assert [] + [TrustValue(trust)] == [TrustValue(trust)] && [TrustValue(trust)] + [PeersRequest] == ms;
    PostAfter(s, x, y, n, ms, c);
    PostAfter(s, x, y, c.0, ms + c.1, Answer(c.0, y));
  }
}
