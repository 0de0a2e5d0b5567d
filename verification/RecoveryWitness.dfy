/** Runs from the initial state that end in a step whose condition fails: a sweep that outlives its
    term records a watermark past a marker in doubt, a session that outlives its term records a marker
    below a watermark, and so does a session whose xid was handed out a second time. */
module RecoveryWitness {
  import opened Base
  import opened Visibility
  import opened RecoveryScan
  import opened Recovery
  import opened RecoveryRuns

  const FIRST := Node(0, false, 0, 0, 1, map[], Idle)

  /** Two nodes, nothing committed. */
  const PAIR := State([], {}, map[0 := FIRST, 1 := FIRST], map[])

  /** The actions lead from `s` to `s'`, with every step's condition met when `ok`. */
  ghost predicate Path(s: State, acts: seq<Action>, s': State, ok: bool)
    decreases |acts|
  {
    if acts == [] then s == s'
    else Enabled(s, acts[0]) && (ok ==> StepOk(s, acts[0])) && Path(Step(s, acts[0]), acts[1..], s', ok)
  }

  ghost predicate Reached(s: State, ok: bool) { exists acts :: Path(PAIR, acts, s, ok) }

  lemma {:induction false} PathExtends(s: State, acts: seq<Action>, s': State, act: Action, ok: bool)
    requires Path(s, acts, s', ok) && Enabled(s', act) && (ok ==> StepOk(s', act))
    ensures Path(s, acts + [act], Step(s', act), ok)
    decreases |acts|
  {
    if acts == [] {
      assert [act][1..] == [];
    } else {
      assert (acts + [act])[1..] == acts[1..] + [act];
      PathExtends(Step(s, acts[0]), acts[1..], s', act, ok);
    }
  }

  lemma Extend(s: State, act: Action, ok: bool) returns (s': State)
    requires Reached(s, ok) && Enabled(s, act) && (ok ==> StepOk(s, act))
    ensures s' == Step(s, act) && Reached(s', ok)
  {
    var acts :| Path(PAIR, acts, s, ok);
    PathExtends(PAIR, acts, s, act, ok);
    s' := Step(s, act);
  }

  /** The states along a path. */
  lemma {:induction false} PathStates(s: State, acts: seq<Action>, s': State, ok: bool) returns (states: seq<State>)
    requires Path(s, acts, s', ok)
    ensures |states| == |acts| + 1 && states[0] == s && states[|acts|] == s'
    ensures forall i | 0 <= i < |acts| ::
              Enabled(states[i], acts[i]) && states[i + 1] == Step(states[i], acts[i]) && (ok ==> StepOk(states[i], acts[i]))
    decreases |acts|
  {
    if acts == [] {
      states := [s];
    } else {
      var rest := PathStates(Step(s, acts[0]), acts[1..], s', ok);
      states := [s] + rest;
      forall i | 0 <= i < |acts|
        ensures Enabled(states[i], acts[i]) && states[i + 1] == Step(states[i], acts[i]) && (ok ==> StepOk(states[i], acts[i]))
      {
        if i > 0 { assert states[i] == rest[i - 1] && acts[i] == acts[1..][i - 1] && states[i + 1] == rest[i]; }
      }
    }
  }

  /** What is reached is reached by a run. */
  lemma ReachedByRun(s: State, ok: bool) returns (states: seq<State>, acts: seq<Action>)
    requires Reached(s, ok)
    ensures Run(states, acts) && states[|acts|] == s && (ok ==> AllOk(states, acts, |acts|))
  {
    acts :| Path(PAIR, acts, s, ok);
    states := PathStates(PAIR, acts, s, ok);
  }

  /** The node as its sweep has reseeded it in term `t`, over a log that ends in the term's blank entry. */
  function Risen(node: Node, t: Term, log: seq<Entry>): Node {
    node.(term := t, leading := true, applied := |log|, next := Max(node.next, Carried(log)), sweep := Reseeded(t, |log|))
  }

  function Update(s: State, log: seq<Entry>, n: NodeId, node: Node): State { s.(log := log, nodes := s.nodes[n := node]) }

  lemma SameNode(s: State, n: NodeId, a: Node, b: Node)
    ensures With(With(s, n, a), n, b) == With(s, n, b)
  {
    assert s.nodes[n := a][n := b] == s.nodes[n := b];
  }

  /** A node wins an election, commits its blank entry and starts its sweep. */
  lemma Win(s: State, n: NodeId, t: Term, ok: bool) returns (s': State)
    requires Reached(s, ok) && n in s.nodes && t !in s.led && s.nodes[n].term < t && s.nodes[n].sweep.Idle?
    requires CanAppend(s.log, t) && s.nodes[n].served < t
    ensures Reached(s', ok)
    ensures var node := s.nodes[n].(term := t, leading := true, sweep := Started(t));
            s' == Update(s, s.log + [Noop(t)], n, node).(led := s.led[t := n])
  {
    var led := Extend(s, Elect(n, t), ok);
    var noop := Extend(led, AppendNoop(n), ok);
    s' := Extend(noop, Begin(n), ok);
    SameNode(s, n, led.nodes[n], s'.nodes[n]);
  }

  /** It waits for that entry and applies the log up to it. */
  lemma CatchUp(s: State, n: NodeId, ok: bool) returns (s': State)
    requires Reached(s, ok) && n in s.nodes && s.nodes[n].leading && s.nodes[n].sweep.Started?
    requires s.log != [] && s.log[|s.log| - 1] == Noop(s.nodes[n].term) && s.nodes[n].applied <= |s.log|
    ensures s' == With(s, n, s.nodes[n].(applied := |s.log|, sweep := Waiting(s.nodes[n].sweep.t, |s.log|)))
    ensures Reached(s', ok)
  {
    var mid := Extend(s, Linearize(n, |s.log| - 1), ok);
    s' := Extend(mid, ApplyTo(n, |s.log|), ok);
    SameNode(s, n, mid.nodes[n], s'.nodes[n]);
  }

  lemma Rise(s: State, n: NodeId, t: Term, ok: bool) returns (s': State)
    requires Reached(s, ok) && n in s.nodes && t !in s.led && s.nodes[n].term < t && s.nodes[n].sweep.Idle?
    requires CanAppend(s.log, t) && s.nodes[n].applied <= |s.log| && s.nodes[n].served < t
    ensures var log := s.log + [Noop(t)];
            s' == Update(s, log, n, Risen(s.nodes[n], t, log)).(led := s.led[t := n]) && Reached(s', ok)
  {
    var log := s.log + [Noop(t)];
    var won := Win(s, n, t, ok);
    var ready := CatchUp(won, n, ok);
    assert log[..|log|] == log;
    s' := Extend(ready, Reseed(n), ok);
    SameNode(won, n, ready.nodes[n], s'.nodes[n]);
    SameNode(s, n, won.nodes[n], s'.nodes[n]);
  }

  /** A node that has applied the whole log re-scans it and finds nothing in doubt. */
  lemma Rescans(s: State, n: NodeId, replica: set<Xid>, lo: Xid, ok: bool) returns (s': State)
    requires Reached(s, ok) && n in s.nodes && s.nodes[n].sweep.Reseeded? && s.nodes[n].applied == |s.log|
    requires replica <= s.decided && ReadsLo(s.log, lo) && EmptyScan(s.log, replica, lo)
    ensures s' == With(s, n, s.nodes[n].(sweep := Clean(s.nodes[n].sweep.t, s.nodes[n].sweep.w, |s.log|, NewLo(s.log, lo))))
    ensures Reached(s', ok)
  {
    assert s.log[..|s.log|] == s.log;
    s' := Extend(s, Rescan(n, replica, lo), ok);
  }

  /** The gate opens for the sweep's term. */
  lemma Opens(s: State, n: NodeId, ok: bool) returns (s': State)
    requires Reached(s, ok) && n in s.nodes && s.nodes[n].sweep.Clean?
    ensures s' == With(s, n, s.nodes[n].(served := s.nodes[n].sweep.t, sweep := Idle)) && Reached(s', ok)
  {
    s' := Extend(s, MarkServed(n), ok);
  }

  lemma Serve(s: State, n: NodeId, replica: set<Xid>, lo: Xid, ok: bool) returns (s': State)
    requires Reached(s, ok) && n in s.nodes && s.nodes[n].sweep.Reseeded? && s.nodes[n].applied == |s.log|
    requires replica <= s.decided && ReadsLo(s.log, lo) && EmptyScan(s.log, replica, lo)
    ensures s' == Update(s, s.log, n, s.nodes[n].(served := s.nodes[n].sweep.t, sweep := Idle)) && Reached(s', ok)
  {
    var clean := Rescans(s, n, replica, lo, ok);
    s' := Opens(clean, n, ok);
    SameNode(s, n, clean.nodes[n], s'.nodes[n]);
  }

  /** The watermark of a clean sweep is recorded. */
  lemma Moves(s: State, n: NodeId, ok: bool) returns (s': State)
    requires Reached(s, ok) && Enabled(s, Advance(n)) && (ok ==> AdvanceOk(s, n))
    ensures s' == s.(log := s.log + [Lo(s.nodes[n].term, s.nodes[n].sweep.newLo)]) && Reached(s', ok)
  {
    s' := Extend(s, Advance(n), ok);
  }

  lemma Applies(s: State, n: NodeId, ok: bool) returns (s': State)
    requires Reached(s, ok) && n in s.nodes && s.nodes[n].applied <= |s.log|
    ensures s' == With(s, n, s.nodes[n].(applied := |s.log|)) && Reached(s', ok)
  {
    s' := Extend(s, ApplyTo(n, |s.log|), ok);
  }

  /** A serving leader takes xid 1 and then xid 2. */
  lemma TakeTwo(s: State, n: NodeId, ok: bool) returns (s': State)
    requires Reached(s, ok) && n in s.nodes && s.nodes[n].Serving() && s.nodes[n].next == 1 && s.nodes[n].held == map[]
    ensures Reached(s', ok)
    ensures s' == Update(s, s.log, n, s.nodes[n].(next := 3, held := map[1 := s.nodes[n].term, 2 := s.nodes[n].term]))
  {
    var t := s.nodes[n].term;
    s' := Extend(s, Take(n), ok);
    s' := Extend(s', Take(n), ok);
    assert s'.nodes[n].held == map[1 := t, 2 := t];
    assert s'.nodes == s.nodes[n := s.nodes[n].(next := 3, held := map[1 := t, 2 := t])];
  }

  lemma SetZero(a: Node, b: Node, c: Node)
    ensures map[0 := a, 1 := b][0 := c] == map[0 := c, 1 := b]
  {}

  lemma SetOne(a: Node, b: Node, c: Node)
    ensures map[0 := a, 1 := b][1 := c] == map[0 := a, 1 := c]
  {}

  lemma {:induction false} BoundIs(log: seq<Entry>, b: Xid, i: nat)
    requires i < |log| && log[i].Clog? && log[i].li + 1 == b
    requires forall j | 0 <= j < |log| && log[j].Clog? :: log[j].li < b
    ensures Bound(log) == b
  {}

  lemma {:induction false} CarriedIs(log: seq<Entry>, c: Xid)
    requires c == 0 || exists i :: 0 <= i < |log| && c == log[i].Counter()
    requires forall j | 0 <= j < |log| :: log[j].Counter() <= c
    ensures Carried(log) == c
  {}

  // ---- A sweep that outlives its term ---------------------------------------------------------

  const SWEEPING := Node(1, true, 1, 0, 1, map[], Reseeded(1, 1))
  const RIVAL := Node(2, true, 2, 2, 3, map[1 := 2, 2 := 2], Idle)

  /** Node 0 is sweeping term 1; node 1 serves term 2 and holds xids 1 and 2. */
  const RIVALS := State([Noop(1), Noop(2)], {}, map[0 := SWEEPING, 1 := RIVAL], map[1 := 0, 2 := 1])

  lemma ReachSweeping() returns (s: State)
    ensures Reached(s, true) && s == State([Noop(1)], {}, map[0 := SWEEPING, 1 := FIRST], map[1 := 0])
  {
    var none: seq<Action> := [];
    assert Path(PAIR, none, PAIR, true);
    CarriedIs([Noop(1)], 0);
    s := Rise(PAIR, 0, 1, true);
    SetZero(FIRST, FIRST, SWEEPING);
  }

  const RISING := Node(2, true, 2, 0, 1, map[], Reseeded(2, 2))

  lemma ReachElected() returns (s: State)
    ensures Reached(s, true) && s == RIVALS.(nodes := map[0 := SWEEPING, 1 := RISING])
  {
    s := ReachSweeping();
    assert s.log + [Noop(2)] == [Noop(1), Noop(2)];
    CarriedIs([Noop(1), Noop(2)], 0);
    SetOne(SWEEPING, FIRST, RISING);
    s := Rise(s, 1, 2, true);
  }

  lemma ReachRivals()
    ensures Reached(RIVALS, true)
  {
    var s := ReachElected();
    SetOne(SWEEPING, RISING, RIVAL.(next := 1, held := map[]));
    SetOne(SWEEPING, RIVAL.(next := 1, held := map[]), RIVAL);
    s := Serve(s, 1, {}, 0, true);
    s := TakeTwo(s, 1, true);
  }

  const LOG := [Noop(1), Noop(2), Clog(2, 2, Some(100), Some(3))]

  /** Node 0's re-scan has reached the decided marker of xid 2. */
  const SCANNED := State(LOG, {100}, map[0 := SWEEPING.(applied := 3, sweep := Clean(1, 1, 3, 3)), 1 := RIVAL],
                         map[1 := 0, 2 := 1])

  lemma ReachMarked() returns (s: State)
    ensures Reached(s, true) && s == RIVALS.(log := LOG, decided := {100})
  {
    ReachRivals();
    s := Extend(RIVALS, AppendClog(1, 2, Some(100), Some(3)), true);
    s := Extend(s, Decide(100), true);
    assert s.log == LOG && s.decided == {100};
  }

  lemma ReachApplied() returns (s: State)
    ensures Reached(s, true) && s == SCANNED.(nodes := map[0 := SWEEPING.(applied := 3), 1 := RIVAL])
  {
    s := ReachMarked();
    s := Applies(s, 0, true);
    SetZero(SWEEPING, RIVAL, SWEEPING.(applied := 3));
  }

  lemma LogBound()
    ensures NewLo(LOG, 0) == 3
  {
    BoundIs(LOG, 3, 2);
  }

  lemma ReachScanned()
    ensures Reached(SCANNED, true)
  {
    LogBound();
    var s := ReachApplied();
    s := Rescans(s, 0, {100}, 0, true);
    SetZero(SWEEPING.(applied := 3), RIVAL, SWEEPING.(applied := 3, sweep := Clean(1, 1, 3, 3)));
  }

  /** Node 1 has recorded the marker of xid 1, still in doubt; node 0 leads again, in term 3. */
  const STALE_NODE := Node(3, true, 3, 0, 1, map[], Clean(1, 1, 3, 3))
  const STALE := State(LOG + [Clog(2, 1, Some(101), Some(3))], {100}, map[0 := STALE_NODE, 1 := RIVAL],
                       map[1 := 0, 2 := 1, 3 := 0])

  lemma ReachDoubt() returns (s: State)
    ensures Reached(s, true) && s == SCANNED.(log := STALE.log)
  {
    ReachScanned();
    assert BelowNone(LOG, 1);
    s := Extend(SCANNED, AppendClog(1, 1, Some(101), Some(3)), true);
  }

  lemma ReachStale()
    ensures Reached(STALE, true)
  {
    var s := ReachDoubt();
    s := Extend(s, Elect(0, 3), true);
    SetZero(SWEEPING.(applied := 3, sweep := Clean(1, 1, 3, 3)), RIVAL, STALE_NODE);
  }

  lemma StaleAdvance()
    ensures Enabled(STALE, Advance(0)) && !AdvanceOk(STALE, 0)
  {
    assert STALE.log[3] == Clog(2, 1, Some(101), Some(3)) && InForce(STALE.log, 3);
  }

  const HIGH := LOG + [Clog(2, 1, Some(101), Some(3)), Lo(3, 3)]
  const IDLE := STALE_NODE.(served := 1, sweep := Idle)

  lemma StaleReached()
    ensures Reached(STALE, false)
  {
    ReachStale();
    var acts :| Path(PAIR, acts, STALE, true);
    Forget(PAIR, acts, STALE);
  }

  lemma ReachHigh() returns (s: State)
    ensures Reached(s, false) && s == State(HIGH, {100}, map[0 := IDLE, 1 := RIVAL], STALE.led)
  {
    StaleReached();
    StaleAdvance();
    s := Moves(STALE, 0, false);
    assert STALE.log + [Lo(3, 3)] == HIGH;
    s := Opens(s, 0, false);
    SetZero(STALE_NODE, RIVAL, IDLE);
  }

  lemma {:induction false} Forget(s: State, acts: seq<Action>, s': State)
    requires Path(s, acts, s', true)
    ensures Path(s, acts, s', false)
    decreases |acts|
  {
    if acts != [] { Forget(Step(s, acts[0]), acts[1..], s'); }
  }

  const LAST := HIGH + [Noop(4)]

  lemma LastScan()
    ensures ReadsLo(LAST, 3) && EmptyScan(LAST, {100}, 3)
  {
    assert LAST[4] == Lo(3, 3);
  }

  lemma ReachEarly() returns (s: State)
    ensures Reached(s, false) && s.log == LAST && s.decided == {100}
    ensures 0 in s.nodes && s.nodes[0].term == 4 && s.nodes[0].Serving()
  {
    s := ReachHigh();
    s := Rise(s, 0, 4, false);
    LastScan();
    s := Serve(s, 0, {100}, 3, false);
  }

  /** A GATE OPENS TOO EARLY: every step of the run meets its condition but the last move of a
      watermark, by a sweep begun two terms before; the node's next sweep starts from it, misses the
      marker in doubt and opens the gate. */
  lemma StaleSweep() returns (s: State)
    ensures Reached(STALE, true) && Enabled(STALE, Advance(0)) && !AdvanceOk(STALE, 0)
    ensures Reached(s, false) && 0 in s.nodes && s.nodes[0].Serving()
    ensures !SettledBefore(s.log, s.decided, s.nodes[0].term)
  {
    ReachStale();
    StaleAdvance();
    s := ReachEarly();
    assert LAST[3] == Clog(2, 1, Some(101), Some(3)) && InForce(LAST, 3);
  }

  // ---- A session that outlives its term -------------------------------------------------------

  const HOLDER := Node(1, true, 1, 1, 3, map[1 := 1, 2 := 1], Idle)

  /** Node 0 serves term 1 and its sessions hold xids 1 and 2. */
  lemma ReachHolder() returns (s: State)
    ensures Reached(s, true) && s == State([Noop(1)], {}, map[0 := HOLDER, 1 := FIRST], map[1 := 0])
  {
    s := ReachSweeping();
    SetZero(SWEEPING, FIRST, HOLDER.(next := 1, held := map[]));
    SetZero(HOLDER.(next := 1, held := map[]), FIRST, HOLDER);
    s := Serve(s, 0, {}, 0, true);
    s := TakeTwo(s, 0, true);
  }

  const SHORT := [Noop(1), Clog(1, 2, Some(100), Some(3)), Noop(2)]

  lemma ReachStaged() returns (s: State)
    ensures Reached(s, true)
    ensures s == State([Noop(1), Clog(1, 2, Some(100), Some(3))], {100}, map[0 := HOLDER, 1 := FIRST], map[1 := 0])
  {
    s := ReachHolder();
    s := Extend(s, AppendClog(0, 2, Some(100), Some(3)), true);
    s := Extend(s, Decide(100), true);
    assert s.decided == {100};
  }

  /** Node 0 after its second rise, once its gate is open. */
  const SERVER := Node(2, true, 3, 2, 3, map[1 := 1, 2 := 1], Idle)
  const SEEDED := SERVER.(served := 1, sweep := Reseeded(2, 3))
  const CLEAN := SERVER.(served := 1, sweep := Clean(2, 3, 3, 3))

  lemma ShortBound()
    ensures NewLo(SHORT, 0) == 3 && Risen(HOLDER, 2, SHORT) == SEEDED
  {
    BoundIs(SHORT, 3, 1);
    assert SHORT[1].Counter() == 3;
    CarriedIs(SHORT, 3);
  }

  /** The session of xid 2 has staged it and its global transaction is decided; node 0 is elected
      again and reseeds. */
  lemma ReachAgain() returns (s: State)
    ensures Reached(s, true) && s == State(SHORT, {100}, map[0 := SEEDED, 1 := FIRST], map[1 := 0, 2 := 0])
  {
    var t := ReachStaged();
    assert t.log + [Noop(2)] == SHORT;
    ShortBound();
    s := Rise(t, 0, 2, true);
    SetZero(HOLDER, FIRST, SEEDED);
  }

  /** Its sweep is clean, the watermark moves past xid 2 and the gate opens. */
  const SERVED := State(SHORT + [Lo(2, 3)], {100}, map[0 := SERVER, 1 := FIRST], map[1 := 0, 2 := 0])

  lemma ReachClean() returns (s: State)
    ensures Reached(s, true) && s == SERVED.(log := SHORT, nodes := map[0 := CLEAN, 1 := FIRST])
  {
    ShortBound();
    s := ReachAgain();
    s := Rescans(s, 0, {100}, 0, true);
    SetZero(SEEDED, FIRST, CLEAN);
  }

  lemma ReachLifted() returns (s: State)
    ensures Reached(s, true) && s == SERVED.(nodes := map[0 := CLEAN, 1 := FIRST])
  {
    s := ReachClean();
    NothingPast(SHORT, 3);
    s := Moves(s, 0, true);
  }

  /** Past the end of the log there is no marker. */
  lemma NothingPast(log: seq<Entry>, k: nat)
    requires k == |log|
    ensures forall i | k <= i :: !InForce(log, i)
  {}

  lemma ReachServed()
    ensures Reached(SERVED, true)
  {
    var s := ReachLifted();
    s := Opens(s, 0, true);
    SetZero(CLEAN, FIRST, SERVER);
  }

  /** A MARKER BELOW THE WATERMARK: every step of the run meets its condition; then the session of
      xid 1, opened in the earlier term, joins a global transaction and stages it. */
  lemma StaleSession()
    ensures Reached(SERVED, true) && Enabled(SERVED, AppendClog(0, 1, Some(101), Some(3))) && !MarkOk(SERVED, 1, Some(101))
    ensures var s := Step(SERVED, AppendClog(0, 1, Some(101), Some(3))); !LosSafe(s.log, s.decided)
  {
    ReachServed();
    SoundIfReached(SERVED);
    ServedMark();
    MarkExact(SERVED.log, SERVED.decided, Clog(2, 1, Some(101), Some(3)));
  }

  lemma ServedMark()
    ensures Enabled(SERVED, AppendClog(0, 1, Some(101), Some(3))) && !MarkOk(SERVED, 1, Some(101))
  {
    assert SERVED.log[3] == Lo(2, 3);
  }

  lemma SoundIfReached(s: State)
    requires Reached(s, true)
    ensures LosSafe(s.log, s.decided)
  {
    var states, acts := ReachedByRun(s, true);
    RunIff(states, acts, |acts|);
  }

  // ---- An xid handed out twice ----------------------------------------------------------------

  /** A serving leader takes its next xid. */
  lemma TakeOne(s: State, n: NodeId, ok: bool) returns (s': State)
    requires Reached(s, ok) && n in s.nodes && s.nodes[n].Serving() && s.nodes[n].next == 1 && s.nodes[n].held == map[]
    ensures Reached(s', ok) && s' == With(s, n, s.nodes[n].(next := 2, held := map[1 := s.nodes[n].term]))
  {
    s' := Extend(s, Take(n), ok);
    assert s'.nodes[n].held == map[1 := s.nodes[n].term];
  }

  /** A locking read took xid 1 on node 0, and no batch has carried the counter. */
  const LOCKER := Node(1, true, 1, 1, 2, map[1 := 1], Idle)

  lemma ReachLocker() returns (s: State)
    ensures Reached(s, true) && s == State([Noop(1)], {}, map[0 := LOCKER, 1 := FIRST], map[1 := 0])
  {
    s := ReachSweeping();
    SetZero(SWEEPING, FIRST, LOCKER.(next := 1, held := map[]));
    SetZero(LOCKER.(next := 1, held := map[]), FIRST, LOCKER);
    s := Serve(s, 0, {}, 0, true);
    s := TakeOne(s, 0, true);
  }

  const JOINED := [Noop(1), Clog(1, 1, Some(100), None)]

  /** The transaction moves on to another range: its marker is recorded alone, and decided. */
  lemma ReachJoined() returns (s: State)
    ensures Reached(s, true) && s == State(JOINED, {100}, map[0 := LOCKER, 1 := FIRST], map[1 := 0])
  {
    s := ReachLocker();
    s := Extend(s, AppendClog(0, 1, Some(100), None), true);
    s := Extend(s, Decide(100), true);
    assert s.decided == {100};
  }

  const RISEN := JOINED + [Noop(2)]
  const SWEPT := Node(2, true, 3, 0, 1, map[], Clean(2, 3, 3, 2))
  const WAITING := State(RISEN, {100}, map[0 := LOCKER, 1 := SWEPT.(sweep := Waiting(2, 3))], map[1 := 0, 2 := 1])

  lemma RisenCarries()
    ensures Carried(RISEN) == 0 && NewLo(RISEN, 0) == 2
  {
    CarriedIs(RISEN, 0);
    BoundIs(RISEN, 2, 1);
  }

  /** Node 1 rises; no applied batch carries a counter past xid 1. */
  lemma ReachWaiting()
    ensures Reached(WAITING, true) && Enabled(WAITING, Reseed(1)) && !ReseedOk(WAITING, 1)
  {
    var s := ReachJoined();
    SetOne(LOCKER, FIRST, SWEPT.(applied := 0, sweep := Started(2)));
    SetOne(LOCKER, SWEPT.(applied := 0, sweep := Started(2)), SWEPT.(sweep := Waiting(2, 3)));
    s := Win(s, 1, 2, true);
    s := CatchUp(s, 1, true);
    WaitingSeed();
  }

  lemma WaitingSeed()
    ensures Enabled(WAITING, Reseed(1)) && !ReseedOk(WAITING, 1)
  {
    RisenCarries();
    assert RISEN[..3] == RISEN && RISEN[1].Clog?;
  }

  const SECOND := Node(2, true, 3, 2, 2, map[1 := 2], Idle)

  lemma ReachSwept() returns (s: State)
    ensures Reached(s, true)
    ensures s == WAITING.(nodes := map[0 := LOCKER, 1 := SWEPT])
  {
    ReachWaiting();
    RisenCarries();
    assert RISEN[..3] == RISEN;
    s := Extend(WAITING, Reseed(1), true);
    SetOne(LOCKER, SWEPT.(sweep := Waiting(2, 3)), SWEPT.(sweep := Reseeded(2, 3)));
    s := Rescans(s, 1, {100}, 0, true);
    SetOne(LOCKER, SWEPT.(sweep := Reseeded(2, 3)), SWEPT);
  }

  /** The watermark passes xid 1, the gate opens, and xid 1 is handed out again. */
  const REISSUED := State(RISEN + [Lo(2, 2)], {100}, map[0 := LOCKER, 1 := SECOND], map[1 := 0, 2 := 1])

  lemma ReachOpened() returns (s: State)
    ensures Reached(s, true) && s == REISSUED.(nodes := map[0 := LOCKER, 1 := SWEPT.(served := 2, sweep := Idle)])
  {
    s := ReachPassed();
    s := Opens(s, 1, true);
    SetOne(LOCKER, SWEPT, SWEPT.(served := 2, sweep := Idle));
  }

  lemma ReachPassed() returns (s: State)
    ensures Reached(s, true)
    ensures s == REISSUED.(nodes := map[0 := LOCKER, 1 := SWEPT])
  {
    s := ReachSwept();
    NothingPast(RISEN, 3);
    s := Moves(s, 1, true);
  }

  lemma ReachReissued()
    ensures Reached(REISSUED, true)
  {
    var s := ReachOpened();
    s := TakeOne(s, 1, true);
    SetOne(LOCKER, SWEPT.(served := 2, sweep := Idle), SECOND);
  }

  const TWICE := RISEN + [Lo(2, 2), Clog(2, 1, Some(101), Some(2))]

  lemma ReachTwice() returns (s: State)
    ensures Reached(s, false) && s == REISSUED.(log := TWICE)
  {
    ReachReissued();
    var acts :| Path(PAIR, acts, REISSUED, true);
    Forget(PAIR, acts, REISSUED);
    s := Extend(REISSUED, AppendClog(1, 1, Some(101), Some(2)), false);
    assert s.log == TWICE;
  }

  const FINAL := TWICE + [Noop(3)]

  lemma ReachFinal() returns (s: State)
    ensures Reached(s, false) && s.log == FINAL && s.decided == {100}
    ensures 0 in s.nodes && s.nodes[0].term == 3 && s.nodes[0].Serving()
  {
    s := ReachTwice();
    s := Rise(s, 0, 3, false);
    assert FINAL[3] == Lo(2, 2);
    s := Serve(s, 0, {100}, 2, false);
  }

  /** A FRESH XID BELOW THE WATERMARK: a marker recorded without the counter lets a new leader hand out
      its xid again, in the current term and through the open gate, and the next sweep opens the gate
      over the marker it stages. Every other step meets its condition. */
  lemma ReissuedXid() returns (s: State)
    ensures Reached(WAITING, true) && Enabled(WAITING, Reseed(1)) && !ReseedOk(WAITING, 1)
    ensures Reached(REISSUED, true) && REISSUED.nodes[1].Serving() && REISSUED.nodes[1].Fresh(1)
    ensures Enabled(REISSUED, AppendClog(1, 1, Some(101), Some(2))) && !MarkOk(REISSUED, 1, Some(101))
    ensures Reached(s, false) && 0 in s.nodes && s.nodes[0].Serving()
    ensures !SettledBefore(s.log, s.decided, s.nodes[0].term)
  {
    ReachWaiting();
    ReachReissued();
    ReissuedMark();
    s := ReachFinal();
    assert FINAL[4] == Clog(2, 1, Some(101), Some(2)) && InForce(FINAL, 4);
  }

  lemma ReissuedMark()
    ensures Enabled(REISSUED, AppendClog(1, 1, Some(101), Some(2))) && !MarkOk(REISSUED, 1, Some(101))
  {
    assert REISSUED.log[3] == Lo(2, 2);
  }
}
