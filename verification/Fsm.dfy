/** The session state machine: its transition table, its handlers, and what every run of events keeps. */
module Fsm {
  import opened Wrappers

  datatype Status = Idle | Connect | Active | OpenSent | OpenConfirm | Established | Clearing | Deleted

  datatype Event =
    | BgpStart | BgpStop
    | TcpOpen | TcpClosed | TcpOpenFailed | TcpFatal
    | ConnectRetry | HoldExpired | KeepaliveExpired
    | GotOpen | GotKeepalive | GotUpdate | GotNotification
    | ClearingDone

  datatype Action =
    | Start | Stop | Ignore | ConnectSuccess | ConnectFail | Reconnect | StopWithError
    | HoldtimeExpire | OpenReceived | Establish | KeepaliveSend | KeepaliveReceived | UpdateReceived | FinishClearing

  datatype Cell = Cell(action: Action, next: Status)

  /** The transition table: the handler to call, and the state to go to unless it objects. */
  function Table(s: Status, e: Event): Cell {
    match s
    case Idle => (
      match e
      case BgpStart => Cell(Start, Connect)
      case BgpStop | TcpOpen | TcpClosed | TcpFatal => Cell(Stop, Idle)
      case _ => Cell(Ignore, Idle))
    case Connect => (
      match e
      case BgpStart => Cell(Ignore, Connect)
      case BgpStop | TcpClosed | GotNotification => Cell(Stop, Idle)
      case TcpOpen => Cell(ConnectSuccess, OpenSent)
      case TcpOpenFailed => Cell(ConnectFail, Active)
      case TcpFatal => Cell(ConnectFail, Idle)
      case ConnectRetry => Cell(Reconnect, Connect)
      case _ => Cell(Ignore, Idle))
    case Active => (
      match e
      case BgpStart | TcpOpenFailed => Cell(Ignore, Active)
      case BgpStop | TcpClosed => Cell(Stop, Idle)
      case TcpOpen => Cell(ConnectSuccess, OpenSent)
      case ConnectRetry => Cell(Start, Connect)
      case GotNotification => Cell(StopWithError, Idle)
      case _ => Cell(Ignore, Idle))
    case OpenSent => (
      match e
      case BgpStart => Cell(Ignore, OpenSent)
      case BgpStop => Cell(Stop, Idle)
      case TcpOpen | TcpClosed | TcpOpenFailed | TcpFatal => Cell(Stop, Active)
      case HoldExpired => Cell(HoldtimeExpire, Idle)
      case GotOpen => Cell(OpenReceived, OpenConfirm)
      case GotNotification => Cell(StopWithError, Idle)
      case _ => Cell(Ignore, Idle))
    case OpenConfirm => (
      match e
      case BgpStart | KeepaliveExpired => Cell(Ignore, OpenConfirm)
      case BgpStop | TcpOpen | TcpClosed | TcpOpenFailed | TcpFatal => Cell(Stop, Idle)
      case HoldExpired => Cell(HoldtimeExpire, Idle)
      case GotKeepalive => Cell(Establish, Established)
      case GotNotification => Cell(StopWithError, Idle)
      case _ => Cell(Ignore, Idle))
    case Established => (
      match e
      case BgpStart => Cell(Ignore, Established)
      case BgpStop | TcpOpen | TcpClosed | TcpOpenFailed | TcpFatal | ConnectRetry | GotOpen => Cell(Stop, Clearing)
      case HoldExpired => Cell(HoldtimeExpire, Clearing)
      case KeepaliveExpired => Cell(KeepaliveSend, Established)
      case GotKeepalive => Cell(KeepaliveReceived, Established)
      case GotUpdate => Cell(UpdateReceived, Established)
      case GotNotification => Cell(StopWithError, Clearing)
      case ClearingDone => Cell(Ignore, Idle))
    case Clearing => (
      match e
      case BgpStart => Cell(Ignore, Clearing)
      case ClearingDone => Cell(FinishClearing, Idle)
      case _ => Cell(Stop, Clearing))
    case Deleted => Cell(Ignore, Deleted)
  }

  /** The states with a session under way. */
  predicate Session(s: Status) {
    s.OpenSent? || s.OpenConfirm? || s.Established?
  }

  /** What the surroundings of a peer are when an event is handled. */
  datatype Env = Env(
    suppressed: bool,      // configured or held down not to start
    active: bool,          // some address family is configured
    passive: bool,         // waits for the other side to connect
    waiting: bool,         // waits for a restarting peer
    accepting: bool,       // a temporary peer made for an incoming connection
    socket: bool,          // connecting gave a socket
    inProgress: bool,      // connecting did not finish at once
    notified: bool,        // a notification got through
    timed: bool,           // the event comes from its timer
    negotiated: Option<nat>, // a hold time agreed on just before the event
    defaultHold: nat)

  datatype Timers = Timers(start: bool, connect: bool, hold: bool, keepalive: bool)

  const QUIET := Timers(false, false, false, false)
  const MAX_START: nat := 120
  const INIT_START: nat := 5

  /** An OPEN, and a KEEPALIVE after it. */
  ghost predicate Confirmed(log: seq<Event>) {
    exists i, j :: 0 <= i < j < |log| && log[i] == GotOpen && log[j] == GotKeepalive
  }

  lemma LogGrows(log: seq<Event>, e: Event)
    ensures GotOpen in log ==> GotOpen in log + [e]
    ensures e == GotOpen ==> GotOpen in log + [e]
    ensures Confirmed(log) || (GotOpen in log && e == GotKeepalive) ==> Confirmed(log + [e])
  {
    var l := log + [e];
    if Confirmed(log) {
      var i, j :| 0 <= i < j < |log| && log[i] == GotOpen && log[j] == GotKeepalive;
      assert l[i] == GotOpen && l[j] == GotKeepalive;
    } else if GotOpen in log && e == GotKeepalive {
      var i :| 0 <= i < |log| && log[i] == GotOpen;
      assert l[i] == GotOpen && l[|log|] == GotKeepalive;
    }
  }

  /** The handlers that bring the connection down. */
  predicate Stops(a: Action) {
    a.Stop? || a.StopWithError? || a.ConnectFail? || a.FinishClearing? || a.Reconnect? || a.HoldtimeExpire?
  }

  /** Whether a handler objects to the table's next state. */
  predicate Objects(a: Action, connected: bool, env: Env) {
    match a
    case Start => env.suppressed || (!env.passive && env.inProgress && !env.socket)
    case ConnectSuccess => !connected
    case HoldtimeExpire => env.accepting
    case _ => false
  }

  /** Whether there is a socket after a handler. */
  predicate SocketAfter(a: Action, connected: bool, env: Env) {
    if a == Start then (if env.suppressed || env.passive then connected else env.socket)
    else if a == Reconnect then !env.suppressed && !env.passive && env.socket
    else !Stops(a) && connected
  }

  function Doubled(delay: nat): nat {
    if delay >= 60 then MAX_START else 2 * delay
  }

  /** The start delay after a handler. */
  function DelayAfter(a: Action, delay: nat, env: Env): nat {
    if a == StopWithError || (a == HoldtimeExpire && env.notified) then Doubled(delay)
    else if a == Establish then INIT_START
    else delay
  }

  lemma DelayBound(a: Action, delay: nat, env: Env)
    requires delay <= MAX_START
    ensures DelayAfter(a, delay, env) <= MAX_START
  {
  }

  /** The hold time when an event is about to be handled, and after a handler. */
  function Negotiated(hold: nat, env: Env): nat {
    if env.negotiated.Some? then env.negotiated.value else hold
  }

  function HoldAfter(a: Action, hold: nat, env: Env): nat {
    if Stops(a) then env.defaultHold else hold
  }

  /** The state after an event that a cell of the table is for. */
  function Outcome(s: Status, connected: bool, cell: Cell, env: Env): Status {
    if !Objects(cell.action, connected, env) then cell.next else if cell.action == HoldtimeExpire then Deleted else s
  }

  /** Sessions come up and go down only as the protocol allows. */
  predicate Sound(s: Status, e: Event, cell: Cell) {
    && (cell.action == Establish <==> s == OpenConfirm && e == GotKeepalive)
    && (cell.action == Establish ==> cell.next == Established)
    && (cell.next == Established && s != Established ==> cell.action == Establish)
    && (cell.next == OpenConfirm && s != OpenConfirm ==> s == OpenSent && e == GotOpen)
    && (cell.next == OpenSent && s != OpenSent ==> cell.action == ConnectSuccess)
    && (Session(cell.next) ==> !Stops(cell.action) && cell.action != Start)
    && (s == Established && e == ClearingDone ==> cell == Cell(Ignore, Idle))
    && (s == Established && e != ClearingDone ==> (cell.next != Established <==> Stops(cell.action)))
    && (cell.next == Clearing && s != Clearing ==> s == Established && Stops(cell.action))
    && (cell.action == Start || cell.action == ConnectSuccess ==> !Session(s))
  }

  /** Every cell of the table is sound. */
  lemma TableSound(s: Status, e: Event)
    ensures Sound(s, e, Table(s, e))
  {
  }

  function One(b: bool): nat {
    if b then 1 else 0
  }

  /** Sessions counted up and not down: the one that is up, and those that ended unnoticed. */
  predicate Counts(s: Status, established: nat, dropped: nat, unnoticed: nat) {
    established == dropped + unnoticed + One(s == Established)
  }

  /** An OPEN has come since OpenSent was entered when it is confirmed, and a KEEPALIVE after it when established. */
  ghost predicate Logged(s: Status, log: seq<Event>) {
    (s == OpenConfirm ==> GotOpen in log) && (s == Established ==> Confirmed(log))
  }

  /** A session has a socket and no start or connect timer; otherwise there is no hold or keepalive timer. */
  predicate Clocked(s: Status, connected: bool, t: Timers) {
    && (Session(s) ==> connected && !t.start && !t.connect)
    && (!Session(s) ==> !t.hold && !t.keepalive)
    && (s == Clearing || s == Deleted ==> t == QUIET)
  }

  /** The hold and keepalive timers run exactly when a session has agreed on a hold time. */
  predicate Running(s: Status, t: Timers, hold: nat) {
    Session(s) ==> t.hold == (hold != 0) && t.keepalive == (hold != 0 && s != OpenSent)
  }

  /** The log after an event. */
  function NewLog(s: Status, n: Status, log: seq<Event>, e: Event): seq<Event> {
    if n == OpenSent && s != OpenSent then [] else log + [e]
  }

  lemma CountsStep(s: Status, e: Event, cell: Cell, c: bool, env: Env, est: nat, dr: nat, un: nat)
    requires Sound(s, e, cell) && Counts(s, est, dr, un)
    ensures Counts(Outcome(s, c, cell, env), est + One(cell.action == Establish),
                   dr + One(Stops(cell.action) && s == Established), un + One(s == Established && e == ClearingDone))
  {
  }

  lemma LoggedStep(s: Status, e: Event, cell: Cell, c: bool, env: Env, log: seq<Event>)
    requires Sound(s, e, cell) && Logged(s, log)
    ensures Logged(Outcome(s, c, cell, env), NewLog(s, Outcome(s, c, cell, env), log, e))
  {
    LogGrows(log, e);
  }

  /** The timers the state calls for. */
  function TimersFor(s: Status, hold: nat, env: Env): Timers {
    match s
    case Idle => QUIET.(start := !env.suppressed && env.active)
    case Connect => QUIET.(connect := true)
    case Active => QUIET.(connect := !env.passive && !env.waiting)
    case OpenSent => QUIET.(hold := hold != 0)
    case OpenConfirm | Established => QUIET.(hold := hold != 0, keepalive := hold != 0)
    case Clearing | Deleted => QUIET
  }

  /** Each timer by the states in which it runs. */
  lemma TimersByKind(s: Status, hold: nat, env: Env)
    ensures var t := TimersFor(s, hold, env);
      && (t.start <==> s == Idle && env.active && !env.suppressed)
      && (t.connect <==> s == Connect || (s == Active && !env.passive && !env.waiting))
      && (t.hold <==> Session(s) && hold != 0)
      && (t.keepalive <==> (s == OpenConfirm || s == Established) && hold != 0)
  {
  }

  lemma ClockedStep(s: Status, e: Event, cell: Cell, c: bool, env: Env, t: Timers, hold: nat)
    requires Sound(s, e, cell) && Clocked(s, c, t)
    ensures var n := Outcome(s, c, cell, env);
            var t' := if !Objects(cell.action, c, env) then TimersFor(n, hold, env)
                      else if Stops(cell.action) then QUIET else t;
            Clocked(n, SocketAfter(cell.action, c, env), t') && Running(n, t', hold)
  {
  }

  // ---------- runs, as a function of the events alone ----------

  /** State and socket, which decide where the next event leads, and the start delay and hold time in force. */
  datatype Mode = Mode(status: Status, connected: bool, delay: nat, hold: nat)

  /** Events with the surroundings each of them is handled in. */
  type Script = seq<(Event, Env)>

  function Move(m: Mode, e: Event, env: Env): Mode {
    MoveBy(m, Table(m.status, e), env)
  }

  function MoveBy(m: Mode, cell: Cell, env: Env): Mode {
    Mode(Outcome(m.status, m.connected, cell, env), SocketAfter(cell.action, m.connected, env),
         DelayAfter(cell.action, m.delay, env), HoldAfter(cell.action, Negotiated(m.hold, env), env))
  }

  function After(m: Mode, script: Script): Mode {
    if script == [] then m else
    var n := |script| - 1;
    Move(After(m, script[..n]), script[n].0, script[n].1)
  }

  /** The state every event of a run finds, and the one it ends in. */
  function Trace(m: Mode, script: Script): (t: seq<Status>)
    ensures |t| == |script| + 1 && t[0] == m.status && t[|script|] == After(m, script).status
  {
    if script == [] then [m.status] else Trace(m, script[..|script| - 1]) + [After(m, script).status]
  }

  /** The events since OpenSent was last entered, with the log so far. */
  function LogAfter(m: Mode, log: seq<Event>, script: Script): seq<Event> {
    if script == [] then log else
    var n := |script| - 1;
    NewLog(After(m, script[..n]).status, After(m, script).status, LogAfter(m, log, script[..n]), script[n].0)
  }

  lemma AfterSnoc(m: Mode, log: seq<Event>, script: Script, i: nat)
    requires i < |script|
    ensures After(m, script[..i + 1]) == Move(After(m, script[..i]), script[i].0, script[i].1)
    ensures Trace(m, script[..i + 1]) == Trace(m, script[..i]) + [After(m, script[..i + 1]).status]
    ensures LogAfter(m, log, script[..i + 1]) ==
      NewLog(After(m, script[..i]).status, After(m, script[..i + 1]).status, LogAfter(m, log, script[..i]), script[i].0)
  {
    assert script[..i + 1][..i] == script[..i];
  }

  lemma MoveSound(m: Mode, e: Event, env: Env)
    ensures var s := Move(m, e, env).status;
      && (s == Established ==> m.status == Established || (m.status == OpenConfirm && e == GotKeepalive))
      && (s == OpenConfirm ==> m.status == OpenConfirm || (m.status == OpenSent && e == GotOpen))
      && (s == OpenSent && m.status != OpenSent ==> !Session(m.status))
  {
    TableSound(m.status, e);
  }

  /** A run of one event more. */
  lemma RunSnoc(m: Mode, script: Script)
    requires script != []
    ensures var n := |script| - 1; var b, a := After(m, script[..n]).status, After(m, script).status;
      && Trace(m, script) == Trace(m, script[..n]) + [a] && Trace(m, script[..n])[n] == b
      && (a == Established ==> b == Established || (b == OpenConfirm && script[n].0 == GotKeepalive))
      && (a == OpenConfirm ==> b == OpenConfirm || (b == OpenSent && script[n].0 == GotOpen))
      && (a == OpenSent && b != OpenSent ==> !Session(b))
  {
    var n := |script| - 1;
    MoveSound(After(m, script[..n]), script[n].0, script[n].1);
  }

  /** Event i brings the peer into OpenSent. */
  predicate Enters(t: seq<Status>, i: nat)
    requires i + 1 < |t|
  {
    t[i] != OpenSent && t[i + 1] == OpenSent
  }

  /** OpenSent was entered by event k and not again. */
  predicate LastEntry(t: seq<Status>, k: nat) {
    k + 1 < |t| && Enters(t, k) && forall l :: k < l < |t| - 1 ==> !Enters(t, l)
  }

  lemma LastEntrySnoc(t: seq<Status>, s: Status, k: nat)
    requires LastEntry(t, k) && (s == OpenSent ==> t[|t| - 1] == OpenSent)
    ensures LastEntry(t + [s], k)
  {
    var u := t + [s];
    assert Enters(u, k);
    forall l | k < l < |u| - 1 ensures !Enters(u, l) {
      assert l < |t| - 1 ==> !Enters(t, l);
    }
  }

  lemma NewEntry(t: seq<Status>)
    requires t != [] && t[|t| - 1] != OpenSent
    ensures LastEntry(t + [OpenSent], |t| - 1)
  {
  }

  /** A session opened in a run was opened by an event of it, the last to enter OpenSent. */
  lemma {:induction false} Opened(m: Mode, script: Script) returns (k: nat)
    requires !Session(m.status) && Session(After(m, script).status)
    ensures k < |script| && LastEntry(Trace(m, script), k)
  {
    var n := |script| - 1;
    RunSnoc(m, script);
    if After(m, script).status == OpenSent && After(m, script[..n]).status != OpenSent {
      k := n;
      NewEntry(Trace(m, script[..n]));
    } else {
      k := Opened(m, script[..n]);
      LastEntrySnoc(Trace(m, script[..n]), After(m, script).status, k);
    }
  }

  /** A session confirmed in a run had its OPEN after OpenSent was last entered. */
  lemma {:induction false} OpenCame(m: Mode, script: Script) returns (k: nat, i: nat)
    requires !Session(m.status) && After(m, script).status == OpenConfirm
    ensures k < i < |script| && LastEntry(Trace(m, script), k) && script[i].0 == GotOpen
  {
    var n := |script| - 1;
    RunSnoc(m, script);
    if After(m, script[..n]).status == OpenConfirm {
      k, i := OpenCame(m, script[..n]);
    } else {
      k := Opened(m, script[..n]);
      i := n;
    }
    LastEntrySnoc(Trace(m, script[..n]), OpenConfirm, k);
  }

  /**
   * In every run from outside a session that ends Established, since OpenSent was last entered an OPEN came, and after
   * it a KEEPALIVE.
   */
  lemma {:induction false} EstablishedOrder(m: Mode, script: Script) returns (k: nat, i: nat, j: nat)
    requires !Session(m.status) && After(m, script).status == Established
    ensures k < i < j < |script| && LastEntry(Trace(m, script), k)
    ensures script[i].0 == GotOpen && script[j].0 == GotKeepalive
  {
    var n := |script| - 1;
    RunSnoc(m, script);
    if After(m, script[..n]).status == Established {
      k, i, j := EstablishedOrder(m, script[..n]);
    } else {
      k, i := OpenCame(m, script[..n]);
      j := n;
    }
    LastEntrySnoc(Trace(m, script[..n]), Established, k);
  }

  /** Event i is a completed clearing that finds a session up. */
  predicate Interrupts(script: Script, t: seq<Status>, i: nat)
    requires i < |script| < |t|
  {
    script[i].0 == ClearingDone && t[i] == Established
  }

  /** How many completed clearings find a session up. */
  function Unnoticed(script: Script, t: seq<Status>): nat
    requires |t| == |script| + 1
  {
    if script == [] then 0 else
    var n := |script| - 1;
    Unnoticed(script[..n], t[..n + 1]) + One(Interrupts(script, t, n))
  }

  lemma UnnoticedSnoc(script: Script, i: nat, t: seq<Status>, s: Status)
    requires i < |script| && |t| == i + 1
    ensures Unnoticed(script[..i + 1], t + [s]) ==
      Unnoticed(script[..i], t) + One(script[i].0 == ClearingDone && t[i] == Established)
  {
    assert script[..i + 1][..i] == script[..i] && (t + [s])[..i + 1] == t;
  }

  /** Every completed clearing finds the session already down. */
  predicate ClearsInTime(script: Script, t: seq<Status>)
    requires |t| == |script| + 1
  {
    forall i :: 0 <= i < |script| ==> !Interrupts(script, t, i)
  }

  lemma ClearsSnoc(script: Script, t: seq<Status>)
    requires script != [] && |t| == |script| + 1
    ensures var n := |script| - 1;
      ClearsInTime(script, t) <==> ClearsInTime(script[..n], t[..n + 1]) && !Interrupts(script, t, n)
  {
    var n := |script| - 1;
    var front, ft := script[..n], t[..n + 1];
    if ClearsInTime(script, t) {
      forall i | 0 <= i < n ensures !Interrupts(front, ft, i) {
        assert !Interrupts(script, t, i);
      }
    }
    if ClearsInTime(front, ft) && !Interrupts(script, t, n) {
      forall i | 0 <= i < |script| ensures !Interrupts(script, t, i) {
        assert i < n ==> !Interrupts(front, ft, i);
      }
    }
  }

  /** No session ends unnoticed exactly when every completed clearing finds it already down. */
  lemma {:induction false} UnnoticedNone(script: Script, t: seq<Status>)
    requires |t| == |script| + 1
    ensures Unnoticed(script, t) == 0 <==> ClearsInTime(script, t)
  {
    if script != [] {
      UnnoticedNone(script[..|script| - 1], t[..|script|]);
      ClearsSnoc(script, t);
    }
  }

  /** How often a run comes into Established. */
  function Rises(t: seq<Status>): nat {
    if |t| < 2 then 0 else
    Rises(t[..|t| - 1]) + One(t[|t| - 2] != Established && t[|t| - 1] == Established)
  }

  lemma RisesSnoc(t: seq<Status>, s: Status)
    requires t != []
    ensures Rises(t + [s]) == Rises(t) + One(t[|t| - 1] != Established && s == Established)
  {
    assert (t + [s])[..|t|] == t;
  }

  // ---------- where the events lead ----------

  /** The events that leave a session as it is; every other one ends it. */
  predicate Keeps(s: Status, e: Event) {
    match s
    case Established => e.BgpStart? || e.KeepaliveExpired? || e.GotKeepalive? || e.GotUpdate?
    case OpenConfirm => e.BgpStart? || e.KeepaliveExpired?
    case OpenSent => e.BgpStart?
    case Clearing => !e.ClearingDone?
    case Deleted => true
    case _ => false
  }

  /** Starting is refused. */
  predicate Refused(env: Env) {
    env.suppressed || (!env.passive && env.inProgress && !env.socket)
  }

  predicate TransportEvent(e: Event) {
    e.TcpOpen? || e.TcpClosed? || e.TcpOpenFailed? || e.TcpFatal?
  }

  /** For each state, exactly the states and events it is reached from. */
  lemma ReachedFrom(m: Mode, e: Event, env: Env)
    ensures var s, n := m.status, Move(m, e, env).status;
      && (n == Established <==> (s == Established && Keeps(s, e)) || (s == OpenConfirm && e == GotKeepalive))
      && (n == OpenConfirm <==> (s == OpenConfirm && Keeps(s, e)) || (s == OpenSent && e == GotOpen))
      && (n == OpenSent <==>
           (s == OpenSent && Keeps(s, e)) || ((s == Connect || s == Active) && e == TcpOpen && m.connected))
      && (n == Deleted <==> s == Deleted || (Session(s) && e == HoldExpired && env.accepting))
      && (n == Clearing <==>
           (s == Clearing && Keeps(s, e)) ||
           (s == Established && !Keeps(s, e) && e != ClearingDone && !(e == HoldExpired && env.accepting)))
      && (n == Connect <==>
           (s == Connect && (e == BgpStart || e == ConnectRetry || (e == TcpOpen && !m.connected))) ||
           (((s == Idle && e == BgpStart) || (s == Active && e == ConnectRetry)) && !Refused(env)))
      && (n == Active <==>
           (s == Connect && e == TcpOpenFailed) || (s == OpenSent && TransportEvent(e)) ||
           (s == Active && (e == BgpStart || e == TcpOpenFailed || (e == TcpOpen && !m.connected) ||
                            (e == ConnectRetry && Refused(env)))))
  {
  }

  /** The events that close the socket, by the states in which they do. */
  predicate Closes(s: Status, e: Event) {
    match e
    case BgpStart => false
    case BgpStop | TcpClosed => s != Deleted
    case TcpOpen => s != Connect && s != Active && s != Deleted
    case TcpOpenFailed => s == Connect || Session(s) || s == Clearing
    case TcpFatal => s != Active && s != Deleted
    case ConnectRetry => s == Connect || s == Established || s == Clearing
    case HoldExpired => Session(s) || s == Clearing
    case GotOpen => s == Established || s == Clearing
    case KeepaliveExpired | GotKeepalive | GotUpdate | ClearingDone => s == Clearing
    case GotNotification => s != Idle && s != Deleted
  }

  /** The socket after any event, and the hold time, which goes back to the configured one when the socket is closed. */
  lemma SocketKept(m: Mode, e: Event, env: Env)
    ensures var s, n := m.status, Move(m, e, env);
      && n.connected == (
           if (s == Idle && e == BgpStart) || (s == Active && e == ConnectRetry) then
             (if env.suppressed || env.passive then m.connected else env.socket)
           else if s == Connect && e == ConnectRetry then !env.suppressed && !env.passive && env.socket
           else m.connected && !Closes(s, e))
      && n.hold == (if Closes(s, e) then env.defaultHold else Negotiated(m.hold, env))
  {
  }

  /** A session given up for an unexpected message keeps its socket: exactly these do not close it. */
  lemma AbandonedOpen(m: Mode, e: Event, env: Env)
    requires Session(m.status) && m.connected
    ensures var n := Move(m, e, env);
      !Session(n.status) && n.connected <==>
        e == ClearingDone ||
        (m.status != Established && (e == ConnectRetry || e == GotUpdate)) ||
        (m.status == OpenConfirm && e == GotOpen) ||
        (m.status == OpenSent && (e == KeepaliveExpired || e == GotKeepalive))
  {
    SocketKept(m, e, env);
    ReachedFrom(m, e, env);
  }

  // ---------- whole sessions ----------

  predicate AllKeep(s: Status, script: Script) {
    forall i :: 0 <= i < |script| ==> Keeps(s, script[i].0)
  }

  predicate Dwells(t: seq<Status>, s: Status) {
    forall i :: 0 <= i < |t| ==> t[i] == s
  }

  /** A state with its own keeping events: left by every other event and by none of these. */
  predicate Lasting(s: Status) {
    Session(s) || s == Clearing || s == Deleted
  }

  lemma KeepsStep(m: Mode, e: Event, env: Env)
    requires Lasting(m.status)
    ensures Move(m, e, env).status == m.status <==> Keeps(m.status, e)
  {
    ReachedFrom(m, e, env);
  }

  lemma {:induction false} TraceStep(m: Mode, script: Script, i: nat)
    requires i < |script| && Lasting(Trace(m, script)[i])
    ensures var t := Trace(m, script); t[i + 1] == t[i] <==> Keeps(t[i], script[i].0)
  {
    var n := |script| - 1;
    if i < n {
      TraceStep(m, script[..n], i);
    } else {
      KeepsStep(After(m, script[..n]), script[n].0, script[n].1);
    }
  }

  /** Event k leaves the state the run started in exactly when it does not keep it. */
  predicate Step(t: seq<Status>, script: Script, k: nat) {
    k < |script| < |t| && (t[k] == t[0] ==> (t[k + 1] == t[0] <==> Keeps(t[0], script[k].0)))
  }

  lemma {:induction false} DwellsUpTo(t: seq<Status>, script: Script, i: nat)
    requires i <= |script| < |t| && AllKeep(t[0], script)
    requires forall k :: 0 <= k < |script| ==> Step(t, script, k)
    ensures t[i] == t[0]
  {
    if i > 0 {
      DwellsUpTo(t, script, i - 1);
      assert Step(t, script, i - 1) && Keeps(t[0], script[i - 1].0);
    }
  }

  lemma DwellsExactly(t: seq<Status>, script: Script)
    requires |t| == |script| + 1 && forall k :: 0 <= k < |script| ==> Step(t, script, k)
    ensures Dwells(t, t[0]) <==> AllKeep(t[0], script)
  {
    if AllKeep(t[0], script) {
      forall i | 0 <= i < |t| ensures t[i] == t[0] {
        DwellsUpTo(t, script, i);
      }
    }
    if Dwells(t, t[0]) {
      forall i | 0 <= i < |script| ensures Keeps(t[0], script[i].0) {
        assert Step(t, script, i) && t[i] == t[0] && t[i + 1] == t[0];
      }
    }
  }

  /**
   * A run that starts in a session, in Clearing or in Deleted stays there all the time exactly when it holds no event
   * other than those that keep that state.
   */
  lemma StaysExactly(m: Mode, script: Script)
    requires Lasting(m.status)
    ensures Dwells(Trace(m, script), m.status) <==> AllKeep(m.status, script)
  {
    var t := Trace(m, script);
    forall k | 0 <= k < |script| ensures Step(t, script, k) {
      if t[k] == t[0] {
        TraceStep(m, script, k);
      }
    }
    DwellsExactly(t, script);
  }

  /** After a script that keeps the state, the state is kept. */
  lemma Kept(m: Mode, script: Script)
    requires Lasting(m.status) && AllKeep(m.status, script)
    ensures After(m, script).status == m.status
  {
    StaysExactly(m, script);
    assert Trace(m, script)[|script|] == m.status;
  }

  lemma {:induction false} AfterConcat(m: Mode, a: Script, b: Script)
    ensures After(m, a + b) == After(After(m, a), b)
  {
    if b == [] {
      assert a + b == a;
    } else {
      var n := |b| - 1;
      assert (a + b)[..|a + b| - 1] == a + b[..n] && (a + b)[|a + b| - 1] == b[n];
      AfterConcat(m, a, b[..n]);
    }
  }

  lemma AfterOne(m: Mode, e: Event, env: Env)
    ensures After(m, [(e, env)]) == Move(m, e, env)
  {
    assert [(e, env)][..0] == [];
  }

  /** The first event that does not keep a session up ends it, and its kind says where the peer goes. */
  lemma FirstDeparture(m: Mode, quiet: Script, e: Event, env: Env)
    requires m.status == Established && AllKeep(Established, quiet) && !Keeps(Established, e)
    ensures After(m, quiet + [(e, env)]).status ==
      if e == ClearingDone then Idle else if e == HoldExpired && env.accepting then Deleted else Clearing
  {
    Kept(m, quiet);
    AfterConcat(m, quiet, [(e, env)]);
    AfterOne(After(m, quiet), e, env);
    ReachedFrom(After(m, quiet), e, env);
  }

  /** From then on nothing but the completed clearing takes the peer anywhere, and that to Idle. */
  lemma SessionEnds(m: Mode, quiet: Script, e: Event, env: Env, wait: Script, env': Env)
    requires m.status == Established && AllKeep(Established, quiet) && !Keeps(Established, e)
    requires e != ClearingDone && !(e == HoldExpired && env.accepting)
    requires forall i :: 0 <= i < |wait| ==> wait[i].0 != ClearingDone
    ensures After(m, quiet + [(e, env)] + wait).status == Clearing
    ensures After(m, quiet + [(e, env)] + wait + [(ClearingDone, env')]).status == Idle
    ensures !After(m, quiet + [(e, env)] + wait + [(ClearingDone, env')]).connected
  {
    var first, all := quiet + [(e, env)], quiet + [(e, env)] + wait;
    FirstDeparture(m, quiet, e, env);
    Kept(After(m, first), wait);
    AfterConcat(m, first, wait);
    AfterConcat(m, all, [(ClearingDone, env')]);
    AfterOne(After(m, all), ClearingDone, env');
    ReachedFrom(After(m, all), ClearingDone, env');
    SocketKept(After(m, all), ClearingDone, env');
  }

  /** The same for a session on its way up: any departure ends in Idle, Active or Deleted. */
  lemma OpeningDeparts(m: Mode, quiet: Script, e: Event, env: Env)
    requires m.status == OpenSent || m.status == OpenConfirm
    requires AllKeep(m.status, quiet) && !Keeps(m.status, e)
    ensures After(m, quiet + [(e, env)]).status ==
      if m.status == OpenSent && e == GotOpen then OpenConfirm
      else if m.status == OpenConfirm && e == GotKeepalive then Established
      else if e == HoldExpired && env.accepting then Deleted
      else if m.status == OpenSent && TransportEvent(e) then Active
      else Idle
  {
    Kept(m, quiet);
    AfterConcat(m, quiet, [(e, env)]);
    AfterOne(After(m, quiet), e, env);
    ReachedFrom(After(m, quiet), e, env);
  }

  /** Starting leaves the peer with a socket to talk on. */
  predicate Reachable(m: Mode, env: Env) {
    !env.suppressed && if env.passive then m.connected else env.socket
  }

  /**
   * Start, connection, OPEN and KEEPALIVE bring an idle peer up exactly when starting is not suppressed and there is a
   * socket: the one that was made, or for a passive peer the one it has.
   */
  lemma HandshakeEstablishes(m: Mode, e0: Env, e1: Env, e2: Env, e3: Env)
    requires m.status == Idle
    ensures After(m, [(BgpStart, e0), (TcpOpen, e1), (GotOpen, e2), (GotKeepalive, e3)]).status == Established <==>
      Reachable(m, e0)
  {
    var s := [(BgpStart, e0), (TcpOpen, e1), (GotOpen, e2), (GotKeepalive, e3)];
    var s3, s2, s1 := s[..3], s[..2], s[..1];
    assert s3[..2] == s2 && s2[..1] == s1 && s1[..0] == [];
    var m1 := Move(m, BgpStart, e0);
    assert After(m, s1) == m1;
    var m2 := Move(m1, TcpOpen, e1);
    assert After(m, s2) == m2;
    var m3 := Move(m2, GotOpen, e2);
    assert After(m, s3) == m3;
    ReachedFrom(m, BgpStart, e0);
    SocketKept(m, BgpStart, e0);
    ReachedFrom(m1, TcpOpen, e1);
    ReachedFrom(m2, GotOpen, e2);
    ReachedFrom(m3, GotKeepalive, e3);
  }

  /** Where a stop leads from each state: sessions that were up are cleared first, and no socket is left. */
  lemma StopLeads(m: Mode, env: Env)
    ensures var n := Move(m, BgpStop, env);
      && n.status == (if m.status == Established || m.status == Clearing then Clearing
                      else if m.status == Deleted then Deleted else Idle)
      && (m.status != Deleted ==> !n.connected)
  {
    ReachedFrom(m, BgpStop, env);
    SocketKept(m, BgpStop, env);
  }

  /** Where a failed connection leads: to waiting for the other side, unless there is nothing to wait for. */
  lemma FailureLeads(m: Mode, env: Env)
    ensures Move(m, TcpOpenFailed, env).status ==
      match m.status {
        case Idle | OpenConfirm => Idle
        case Connect | Active | OpenSent => Active
        case Established | Clearing => Clearing
        case Deleted => Deleted
      }
  {
    ReachedFrom(m, TcpOpenFailed, env);
  }

  /** Where an expired hold timer leads. */
  lemma HoldExpiryLeads(m: Mode, env: Env)
    ensures Move(m, HoldExpired, env).status ==
      match m.status {
        case Idle | Connect | Active => Idle
        case OpenSent | OpenConfirm => if env.accepting then Deleted else Idle
        case Established => if env.accepting then Deleted else Clearing
        case Clearing => Clearing
        case Deleted => Deleted
      }
    ensures Session(m.status) ==> !Move(m, HoldExpired, env).connected
  {
    ReachedFrom(m, HoldExpired, env);
    SocketKept(m, HoldExpired, env);
  }

  // ---------- the start delay ----------

  /** The event is an error: a NOTIFICATION, outside Connect, or an expiry the other side was told of. */
  predicate Fails(s: Status, e: Event, env: Env) {
    (e == GotNotification && (Session(s) || s == Active)) || (e == HoldExpired && Session(s) && env.notified)
  }

  lemma DelayStep(m: Mode, e: Event, env: Env)
    ensures Move(m, e, env).delay ==
      if Fails(m.status, e, env) then Doubled(m.delay)
      else if m.status != Established && Move(m, e, env).status == Established then INIT_START
      else m.delay
  {
    ReachedFrom(m, e, env);
  }

  /** Errors since the session was last up, in a run that comes through the states of t. */
  function Failures(script: Script, t: seq<Status>): nat
    requires |t| == |script| + 1
  {
    if script == [] then 0 else
    var n := |script| - 1;
    if t[n] != Established && t[n + 1] == Established then 0
    else Failures(script[..n], t[..n + 1]) + One(Fails(t[n], script[n].0, script[n].1))
  }

  /** The delay to begin with, or the initial one once a session has come up. */
  function Base(m: Mode, t: seq<Status>): nat {
    if Rises(t) == 0 then m.delay else INIT_START
  }

  function Power2(k: nat): nat {
    if k == 0 then 1 else 2 * Power2(k - 1)
  }

  /** Doubled k times, and stopped at two minutes. */
  function Grown(base: nat, k: nat): nat {
    var n := base * Power2(k);
    if n >= MAX_START then MAX_START else n
  }

  lemma GrownStep(base: nat, k: nat)
    ensures Doubled(Grown(base, k)) == Grown(base, k + 1)
    ensures base <= MAX_START ==> Grown(base, 0) == base
  {
    var n := base * Power2(k);
    assert base * Power2(k + 1) == 2 * n && base * Power2(0) == base;
  }

  lemma FailuresSnoc(m: Mode, script: Script)
    requires script != []
    ensures var n := |script| - 1;
      var t, t', b, a := Trace(m, script), Trace(m, script[..n]), After(m, script[..n]).status, After(m, script).status;
      && (if b != Established && a == Established then Base(m, t) == INIT_START && Failures(script, t) == 0
          else Base(m, t) == Base(m, t') &&
               Failures(script, t) == Failures(script[..n], t') + One(Fails(b, script[n].0, script[n].1)))
  {
    var n := |script| - 1;
    var t' := Trace(m, script[..n]);
    assert Trace(m, script)[..n + 1] == t';
    RisesSnoc(t', After(m, script).status);
  }

  lemma GrownOn(base: nat, k: nat, base': nat, k': nat, d': nat, fails: bool, rises: bool)
    requires d' == if fails then Doubled(Grown(base, k)) else if rises then INIT_START else Grown(base, k)
    requires if rises then base' == INIT_START && k' == 0 && !fails else base' == base && k' == k + One(fails)
    ensures d' == Grown(base', k')
  {
    GrownStep(INIT_START, 0);
    GrownStep(base, k);
  }

  lemma FailsOnly(m: Mode, e: Event, env: Env)
    ensures m.status != Established && Move(m, e, env).status == Established ==> !Fails(m.status, e, env)
  {
    ReachedFrom(m, e, env);
  }

  /** Over a whole run the delay doubles with every error since a session was last up, and stops at two minutes. */
  lemma {:induction false} DelayGrows(m: Mode, script: Script)
    requires m.delay <= MAX_START
    ensures var t := Trace(m, script); After(m, script).delay == Grown(Base(m, t), Failures(script, t))
  {
    var t := Trace(m, script);
    if script == [] {
      GrownStep(m.delay, 0);
    } else {
      var n := |script| - 1;
      var front := script[..n];
      var t' := Trace(m, front);
      DelayGrows(m, front);
      var b, e, env := After(m, front), script[n].0, script[n].1;
      DelayStep(b, e, env);
      FailuresSnoc(m, script);
      FailsOnly(b, e, env);
      GrownOn(Base(m, t'), Failures(front, t'), Base(m, t), Failures(script, t), Move(b, e, env).delay,
              Fails(b.status, e, env), b.status != Established && Move(b, e, env).status == Established);
    }
  }

  class Peer {
    var status: Status
    var connected: bool
    var timers: Timers
    var vStart: nat
    var vHold: nat
    var established: nat
    var dropped: nat

    /** The events handled since OpenSent was last entered. */
    ghost var log: seq<Event>
    /** How often an established session went idle without being counted as dropped. */
    ghost var unnoticed: nat

    /** What holds whenever an event is about to be handled. */
    ghost predicate Ready()
      reads this
    {
      && vStart <= MAX_START
      && Counts(status, established, dropped, unnoticed)
      && Clocked(status, connected, timers)
      && Logged(status, log)
    }

    ghost predicate Valid()
      reads this
    {
      Ready() && Running(status, timers, vHold)
    }

    constructor (c: bool, hold: nat)
      ensures Valid() && status == Idle && established == 0 && dropped == 0 && unnoticed == 0
    {
      status, connected, timers := Idle, c, QUIET;
      vStart, vHold := INIT_START, hold;
      established, dropped := 0, 0;
      log, unnoticed := [], 0;
    }

    /** Switch every timer on or off as the state requires. */
    method TimerSet(env: Env)
      modifies this`timers
      ensures timers == TimersFor(status, vHold, env)
    {
      timers := QUIET;
      match status {
        case Idle =>
          if !(env.suppressed || !env.active) { timers := timers.(start := true); }
        case Connect =>
          timers := timers.(connect := true);
        case Active =>
          if !(env.passive || env.waiting) { timers := timers.(connect := true); }
        case OpenSent =>
          if vHold != 0 { timers := timers.(hold := true); }
        case OpenConfirm =>
          if vHold != 0 { timers := timers.(hold := true, keepalive := true); }
        case Established =>
          if vHold != 0 { timers := timers.(hold := true, keepalive := true); }
        case Clearing =>
        case Deleted =>
      }
    }

    /** Change state; entering OpenSent starts a new session's history. */
    method ChangeStatus(s: Status)
      modifies this`status, this`log
      ensures status == s && log == if s == OpenSent then [] else old(log)
    {
      status := s;
      if s == OpenSent { log := []; }
    }

    method StopPeer(env: Env)
      modifies this`dropped, this`timers, this`connected, this`vHold
      ensures dropped == old(dropped) + (if status == Established then 1 else 0)
      ensures timers == QUIET && !connected && vHold == env.defaultHold
    {
      if status == Established {
        dropped := dropped + 1;
      }
      timers := QUIET;
      connected := false;
      vHold := env.defaultHold;
    }

    method Backoff()
      modifies this`vStart
      ensures vStart == Doubled(old(vStart))
    {
      vStart := vStart * 2;
      if vStart >= MAX_START {
        vStart := MAX_START;
      }
    }

    method StartPeer(env: Env) returns (ok: bool)
      modifies this`connected
      ensures ok == !(env.suppressed || (!env.passive && env.inProgress && !env.socket))
      ensures connected == if env.suppressed || env.passive then old(connected) else env.socket
    {
      if env.suppressed {
        return false;
      }
      if env.passive {
        return true;
      }
      connected := env.socket;
      if env.inProgress && !connected {
        return false;
      }
      ok := true;
    }

    /** The hold timer ran out: tell the other side, and stop or, for a temporary peer, go away altogether. */
    method HoldExpire(env: Env) returns (ok: bool)
      modifies this`dropped, this`timers, this`connected, this`vHold, this`vStart, this`status, this`log
      ensures ok == !env.accepting
      ensures dropped == old(dropped) + (if old(status) == Established then 1 else 0)
      ensures timers == QUIET && !connected && vHold == env.defaultHold
      ensures vStart == DelayAfter(HoldtimeExpire, old(vStart), env)
      ensures status == (if env.accepting then Deleted else old(status)) && log == old(log)
    {
      if env.notified {
        Backoff();
      }
      StopPeer(env);
      if env.accepting {
        ChangeStatus(Deleted);
        return false;
      }
      ok := true;
    }

    method EstablishPeer()
      modifies this`vStart, this`established, this`status, this`log
      ensures vStart == INIT_START && established == old(established) + 1 && status == Established && log == old(log)
    {
      vStart := INIT_START;
      established := established + 1;
      ChangeStatus(Established);
    }

    /** A timer whose expiry is the event is off. */
    method TimerFired(e: Event)
      modifies this`timers
      ensures timers.start == (old(timers.start) && e != BgpStart)
      ensures timers.connect == (old(timers.connect) && e != ConnectRetry)
      ensures timers.hold == (old(timers.hold) && e != HoldExpired)
      ensures timers.keepalive == (old(timers.keepalive) && e != KeepaliveExpired)
    {
      match e {
        case BgpStart => timers := timers.(start := false);
        case ConnectRetry => timers := timers.(connect := false);
        case HoldExpired => timers := timers.(hold := false);
        case KeepaliveExpired => timers := timers.(keepalive := false);
        case _ =>
      }
    }

    method Perform(a: Action, env: Env) returns (ok: bool)
      modifies this`connected, this`timers, this`vStart, this`vHold
      modifies this`established, this`dropped, this`status, this`log
      ensures log == old(log) && ok == !Objects(a, old(connected), env)
      ensures vStart == DelayAfter(a, old(vStart), env) && vHold == HoldAfter(a, old(vHold), env)
      ensures established == old(established) + One(a == Establish)
      ensures dropped == old(dropped) + One(Stops(a) && old(status) == Established)
      ensures status == (if a == Establish then Established
                         else if a == HoldtimeExpire && !ok then Deleted else old(status))
      ensures connected == SocketAfter(a, old(connected), env)
      ensures !ok ==> timers == if Stops(a) then QUIET else old(timers)
    {
      ok := true;
      match a {
        case Start => ok := StartPeer(env);
        case Stop => StopPeer(env);
        case Ignore =>
        case ConnectSuccess => ok := connected;
        case ConnectFail => StopPeer(env);
        case Reconnect =>
          StopPeer(env);
          var _ := StartPeer(env);
        case StopWithError =>
          Backoff();
          StopPeer(env);
        case HoldtimeExpire => ok := HoldExpire(env);
        case OpenReceived => timers := timers.(hold := false);
        case Establish => EstablishPeer();
        case KeepaliveSend =>
        case KeepaliveReceived => timers := timers.(hold := false);
        case UpdateReceived => timers := timers.(hold := false);
        case FinishClearing => StopPeer(env);
      }
    }

    /** Call a cell's handler, and unless it objects go to the cell's state and set the timers. */
    method Apply(cell: Cell, env: Env)
      requires cell.action == Establish ==> cell.next == Established
      modifies this
      ensures unnoticed == old(unnoticed)
      ensures vStart == DelayAfter(cell.action, old(vStart), env) && vHold == HoldAfter(cell.action, old(vHold), env)
      ensures status == Outcome(old(status), old(connected), cell, env)
      ensures log == if status == OpenSent && old(status) != OpenSent then [] else old(log)
      ensures established == old(established) + One(cell.action == Establish)
      ensures dropped == old(dropped) + One(Stops(cell.action) && old(status) == Established)
      ensures connected == SocketAfter(cell.action, old(connected), env)
      ensures timers == if !Objects(cell.action, old(connected), env) then TimersFor(status, vHold, env)
                        else if Stops(cell.action) then QUIET else old(timers)
    {
      var ok := Perform(cell.action, env);
      if ok {
        if cell.next != status {
          ChangeStatus(cell.next);
        }
        TimerSet(env);
      }
    }

    /** A hold time agreed on, and the timer whose expiry this is, before the event is handled. */
    method Prepare(e: Event, env: Env)
      modifies this`vHold, this`timers
      ensures Clocked(status, connected, old(timers)) ==> Clocked(status, connected, timers)
      ensures vHold == Negotiated(old(vHold), env)
    {
      if env.negotiated.Some? {
        vHold := env.negotiated.value;
      }
      if env.timed {
        TimerFired(e);
      }
    }

    /** Handle one event as a sound cell says. */
    method HandleBy(cell: Cell, e: Event, env: Env)
      requires Valid() && Sound(status, e, cell)
      modifies this
      ensures Valid() && Stance() == MoveBy(old(Stance()), cell, env)
      ensures !Objects(cell.action, old(connected), env) ==> timers == TimersFor(status, vHold, env)
      ensures log == NewLog(old(status), status, old(log), e)
      ensures unnoticed == old(unnoticed) + One(old(status) == Established && e == ClearingDone)
      ensures established == old(established) + One(status == Established && old(status) != Established)
      ensures dropped == old(dropped) + One(old(status) == Established && status != Established && e != ClearingDone)
    {
      Prepare(e, env);
      ghost var t := timers;
      DelayBound(cell.action, vStart, env);
      Apply(cell, env);
      log := NewLog(old(status), status, old(log), e);
      unnoticed := unnoticed + One(old(status) == Established && e == ClearingDone);
      CountsStep(old(status), e, cell, old(connected), env, old(established), old(dropped), old(unnoticed));
      LoggedStep(old(status), e, cell, old(connected), env, old(log));
      ClockedStep(old(status), e, cell, old(connected), env, t, vHold);
    }

    /** Handle one event as the table says. */
    method Handle(e: Event, env: Env)
      requires Valid()
      modifies this
      ensures Valid() && Stance() == Move(old(Stance()), e, env)
      ensures !Objects(Table(old(status), e).action, old(connected), env) ==> timers == TimersFor(status, vHold, env)
      ensures log == NewLog(old(status), status, old(log), e)
      ensures unnoticed == old(unnoticed) + One(old(status) == Established && e == ClearingDone)
      ensures established == old(established) + One(status == Established && old(status) != Established)
      ensures dropped == old(dropped) + One(old(status) == Established && status != Established && e != ClearingDone)
    {
      TableSound(status, e);
      HandleBy(Table(status, e), e, env);
    }

    /** Sessions counted as established, less those counted as dropped and the one that is up. */
    ghost function Surplus(): int
      reads this
    {
      established - dropped - One(status == Established)
    }

    ghost function Stance(): Mode
      reads this
    {
      Mode(status, connected, vStart, vHold)
    }

    /**
     * Any run of events from a valid peer. State, socket, log and trace are the functions of the events above, and
     * the counts of sessions stay in step exactly when every completed clearing finds the session down.
     */
    method Run(script: Script) returns (trace: seq<Status>)
      requires Valid()
      modifies this
      ensures Valid() && Stance() == After(old(Stance()), script)
      ensures trace == Trace(old(Stance()), script)
      ensures log == LogAfter(old(Stance()), old(log), script)
      ensures established == old(established) + Rises(Trace(old(Stance()), script))
      ensures Surplus() == old(Surplus()) + Unnoticed(script, Trace(old(Stance()), script))
      ensures Surplus() == old(Surplus()) <==> ClearsInTime(script, Trace(old(Stance()), script))
    {
      trace := [status];
      ghost var m := Stance();
      for i := 0 to |script|
        invariant Valid() && Stance() == After(m, script[..i])
        invariant trace == Trace(m, script[..i]) && log == LogAfter(m, old(log), script[..i])
        invariant unnoticed == old(unnoticed) + Unnoticed(script[..i], trace)
        invariant established == old(established) + Rises(trace)
      {
        AfterSnoc(m, old(log), script, i);
        Handle(script[i].0, script[i].1);
        UnnoticedSnoc(script, i, trace, status);
        RisesSnoc(trace, status);
        trace := trace + [status];
      }
      assert script[..|script|] == script;
      UnnoticedNone(script, trace);
    }
  }

  const WILLING := Env(false, true, false, false, false, true, false, false, false, None, 180)

  /** A peer brought as far as having sent its OPEN. */
  method OpenedPeer() returns (peer: Peer)
    ensures fresh(peer) && peer.Valid() && peer.status == OpenSent && peer.established == 0 && peer.dropped == 0
  {
    peer := new Peer(false, 180);
    peer.Handle(BgpStart, WILLING);
    assert peer.status == Connect && peer.connected;
    peer.Handle(TcpOpen, WILLING);
  }

  method EstablishedPeer() returns (peer: Peer)
    ensures fresh(peer) && peer.Valid() && peer.status == Established && peer.established == 1 && peer.dropped == 0
  {
    peer := OpenedPeer();
    peer.Handle(GotOpen, WILLING);
    assert peer.status == OpenConfirm;
    peer.Handle(GotKeepalive, WILLING);
  }

  /** A clearing completed while a session is up ends it without its being counted as dropped. */
  method ClearingEndsUnnoticed() returns (established: nat, dropped: nat, s: Status)
    ensures established == 1 && dropped == 0 && s == Idle
  {
    var peer := EstablishedPeer();
    peer.Handle(ClearingDone, WILLING);
    return peer.established, peer.dropped, peer.status;
  }
}
