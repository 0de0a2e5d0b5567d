/** Every interleaving of acquires, releases, wake-ups, cancellations and recovery re-locks. */
module LockRuns {
  import opened Locks

  /** An outstanding `acquire`: about to enter the guard, or parked on its notifier. */
  datatype Phase = Trying | Parked(n: Notify)
  datatype Call = Call(row: Row, mode: Mode, phase: Phase)

  /** `waking`: notifiers taken out of the table but not yet notified; `permits`: notifiers whose
      permit is stored; `next`: the next unused notifier. */
  datatype Sys = Sys(t: Table, calls: map<Xid, Call>, waking: set<Notify>, permits: set<Notify>, next: Notify)

  const INIT := Sys(Table(map[], map[], map[]), map[], {}, {}, 0)

  datatype Action =
    | Start(x: Xid, row: Row, mode: Mode)
    | Pass(x: Xid, o: Outcome)
    | Wake(x: Xid)
    | Drop(x: Xid)
    | Release(x: Xid)
    | Deliver(n: Notify)
    | Relock(row: Row, x: Xid)

  function Notifiers(ns: seq<Notify>): set<Notify> { set n | n in ns }

  /** Recovery re-locks a row nobody else holds. */
  predicate FreeOrOwn(locks: map<Row, RowLock>, row: Row, x: Xid) { row in locks ==> locks[row].holders <= {x} }

  ghost predicate Step(s: Sys, act: Action, s': Sys) {
    match act
    case Start(x, row, mode) => x !in s.calls && s' == s.(calls := s.calls[x := Call(row, mode, Trying)])
    case Pass(x, o) =>
      && x in s.calls && s.calls[x].phase.Trying?
      && Attempt(s.t, s.calls[x].row, s.calls[x].mode, x, s.next, o, s'.t)
      && s' == s.(t := s'.t, next := s.next + 1,
                  calls := if o.Park? then s.calls[x := s.calls[x].(phase := Parked(s.next))] else s.calls - {x})
    case Wake(x) =>
      && x in s.calls && s.calls[x].phase.Parked? && s.calls[x].phase.n in s.permits
      && s' == s.(calls := s.calls[x := s.calls[x].(phase := Trying)], permits := s.permits - {s.calls[x].phase.n})
    case Drop(x) => s' == s.(calls := s.calls - {x})
    case Release(x) =>
      x !in s.calls && s' == s.(t := Released(s.t, x), waking := s.waking + Notifiers(WaitersOf(s.t.waiters, x)))
    case Deliver(n) => n in s.waking && s' == s.(waking := s.waking - {n}, permits := s.permits + {n})
    case Relock(row, x) =>
      FreeOrOwn(s.t.locks, row, x) && s' == s.(t := s.t.(locks := Relocked(s.t.locks, row, x)))
  }

  /** `states` is a run: it starts empty and each action leads from one state to the next. */
  ghost predicate Run(states: seq<Sys>, acts: seq<Action>) {
    && |states| == |acts| + 1 && states[0] == INIT
    && forall i | 0 <= i < |acts| :: Step(states[i], acts[i], states[i + 1])
  }

  // ---- The invariant ------------------------------------------------------------------------

  /** Every lock has a holder, and an exclusive one has exactly one. */
  ghost predicate LocksOk(locks: map<Row, RowLock>) {
    forall row | row in locks ::
      && locks[row].holders != {}
      && (locks[row].mode == Exclusive ==>
            forall a, b | a in locks[row].holders && b in locks[row].holders :: a == b)
  }

  /** The waiter is registered under a holder that still stands in its way. */
  ghost predicate Registered(t: Table, row: Row, mode: Mode, x: Xid, n: Notify) {
    && x in t.waitFor && t.waitFor[x] != x && row in t.locks && t.waitFor[x] in t.locks[row].holders
    && Blocked(t.locks[row], mode, x) && n in WaitersOf(t.waiters, t.waitFor[x])
  }

  ghost predicate CallOk(s: Sys, x: Xid)
    requires x in s.calls
  {
    s.calls[x].phase.Parked? ==>
      var n := s.calls[x].phase.n;
      && n < s.next && x in s.t.waitFor
      && (n !in s.waking && n !in s.permits ==> Registered(s.t, s.calls[x].row, s.calls[x].mode, x, n))
  }

  ghost predicate OwnNotifiers(calls: map<Xid, Call>) {
    forall x, y | x in calls && y in calls && calls[x].phase.Parked? && calls[x].phase == calls[y].phase :: x == y
  }

  ghost predicate Inv(s: Sys) {
    LocksOk(s.t.locks) && Acyclic(s.t.waitFor) && OwnNotifiers(s.calls) && forall x | x in s.calls :: CallOk(s, x)
  }

  // ---- Preservation ---------------------------------------------------------------------------

  lemma GrantedLocks(locks: map<Row, RowLock>, row: Row, mode: Mode, x: Xid)
    requires LocksOk(locks) && !(row in locks && Blocked(locks[row], mode, x))
    ensures LocksOk(Granted(locks, row, mode, x))
  {}

  /** A grant adds `x` to the holders, alone when exclusive; a shared grant keeps the row's mode,
      shared on a free row; no other row changes. */
  lemma GrantGives(locks: map<Row, RowLock>, row: Row, mode: Mode, x: Xid)
    requires LocksOk(locks) && !(row in locks && Blocked(locks[row], mode, x))
    ensures Granted(locks, row, mode, x).Keys == locks.Keys + {row}
    ensures Granted(locks, row, mode, x)[row].holders == (if row in locks then locks[row].holders else {}) + {x}
    ensures mode == Exclusive ==> Granted(locks, row, mode, x)[row] == RowLock(Exclusive, {x})
    ensures mode == Shared ==> Granted(locks, row, mode, x)[row].mode == if row in locks then locks[row].mode else Shared
    ensures forall q | q in locks && q != row :: Granted(locks, row, mode, x)[q] == locks[q]
  {
    if mode == Exclusive && row in locks && x in locks[row].holders {
      assert locks[row].holders == {x};
    }
  }

  /** COMPATIBILITY: a request waits exactly when some other transaction holds the row, except that
      shared requests join shared locks and a holder may ask again for no more than it has. */
  lemma BlockedExactly(locks: map<Row, RowLock>, row: Row, mode: Mode, x: Xid)
    requires LocksOk(locks) && row in locks
    ensures Blocked(locks[row], mode, x) <==>
            && (exists h :: h in locks[row].holders && h != x)
            && (mode == Exclusive || locks[row].mode == Exclusive)
  {
    var lock := locks[row];
    if forall h | h in lock.holders :: h == x { assert lock.holders == {x}; }
  }

  /** Any number of transactions share a row: granted shared requests leave room for one more. */
  lemma SharedCoexist(locks: map<Row, RowLock>, row: Row, x: Xid, y: Xid)
    requires LocksOk(locks) && (row in locks ==> locks[row].mode == Shared)
    ensures !(row in locks && Blocked(locks[row], Shared, x))
    ensures !Blocked(Granted(locks, row, Shared, x)[row], Shared, y)
    ensures Granted(Granted(locks, row, Shared, x), row, Shared, y)[row] ==
            RowLock(Shared, (if row in locks then locks[row].holders else {}) + {x, y})
  {
    GrantGives(locks, row, Shared, x);
    GrantedLocks(locks, row, Shared, x);
    GrantGives(Granted(locks, row, Shared, x), row, Shared, y);
  }

  /** A grant leaves every registered waiter blocked by the same holder. */
  lemma GrantKeepsWaiter(t: Table, row: Row, mode: Mode, x: Xid, y: Xid, row': Row, mode': Mode, n: Notify)
    requires LocksOk(t.locks) && !(row in t.locks && Blocked(t.locks[row], mode, x)) && y != x
    requires Registered(t, row', mode', y, n)
    ensures Registered(t.(locks := Granted(t.locks, row, mode, x), waitFor := t.waitFor - {x}), row', mode', y, n)
  {}

  lemma PassKeepsInv(s: Sys, x: Xid, o: Outcome, s': Sys)
    requires Inv(s) && Step(s, Pass(x, o), s')
    ensures Inv(s')
  {
    var c := s.calls[x];
    if o.Park? {
      NewEdgeAcyclic(s.t.waitFor, x, o.holder);
    } else {
      FewerEdgesAcyclic(s.t.waitFor, x);
      if o.Grant? { GrantedLocks(s.t.locks, c.row, c.mode, x); }
    }
    forall y | y in s'.calls ensures CallOk(s', y) {
      if y != x {
        assert CallOk(s, y);
        if o.Grant? && s.calls[y].phase.Parked? && Registered(s.t, s.calls[y].row, s.calls[y].mode, y, s.calls[y].phase.n) {
          GrantKeepsWaiter(s.t, c.row, c.mode, x, y, s.calls[y].row, s.calls[y].mode, s.calls[y].phase.n);
        }
      }
    }
    forall y | y in s.calls ensures s.calls[y].phase.Parked? ==> s.calls[y].phase.n < s.next { assert CallOk(s, y); }
  }

  lemma WakeKeepsInv(s: Sys, x: Xid, s': Sys)
    requires Inv(s) && Step(s, Wake(x), s')
    ensures Inv(s')
  {
    forall y | y in s'.calls ensures CallOk(s', y) { assert CallOk(s, y); }
  }

  lemma ReleaseKeepsWaiter(t: Table, x: Xid, y: Xid, row: Row, mode: Mode, n: Notify)
    requires Registered(t, row, mode, y, n) && y != x && n !in WaitersOf(t.waiters, x)
    ensures Registered(Released(t, x), row, mode, y, n)
  {
    assert t.waitFor[y] in t.locks[row].holders - {x};
  }

  lemma RemainingLocks(locks: map<Row, RowLock>, x: Xid)
    requires LocksOk(locks)
    ensures LocksOk(Remaining(locks, x))
  {}

  lemma ReleaseKeepsInv(s: Sys, x: Xid, s': Sys)
    requires Inv(s) && Step(s, Release(x), s')
    ensures Inv(s')
  {
    FewerEdgesAcyclic(s.t.waitFor, x);
    RemainingLocks(s.t.locks, x);
    forall y | y in s'.calls ensures CallOk(s', y) {
      assert CallOk(s, y);
      if s.calls[y].phase.Parked? {
        var n := s.calls[y].phase.n;
        if n !in s'.waking && n !in s'.permits {
          ReleaseKeepsWaiter(s.t, x, y, s.calls[y].row, s.calls[y].mode, n);
        }
      }
    }
  }

  /** EXACT CONDITION for recovery: `reacquire_exclusive` adds its transaction to the holders and
      replaces nobody, so it leaves an exclusive lock with one holder exactly when the row was
      free or its own. */
  lemma RelockExact(locks: map<Row, RowLock>, row: Row, x: Xid)
    requires LocksOk(locks)
    ensures LocksOk(Relocked(locks, row, x)) <==> FreeOrOwn(locks, row, x)
  {
    var locks' := Relocked(locks, row, x);
    assert locks'[row].mode == Exclusive && x in locks'[row].holders;
    if !FreeOrOwn(locks, row, x) {
      var h :| h in locks[row].holders && h != x;
      assert h in locks'[row].holders;
    }
  }

  lemma RelockKeepsInv(s: Sys, row: Row, x: Xid, s': Sys)
    requires Inv(s) && Step(s, Relock(row, x), s')
    ensures Inv(s')
  {
    RelockExact(s.t.locks, row, x);
    forall y | y in s'.calls ensures CallOk(s', y) { assert CallOk(s, y); }
  }

  lemma StepKeepsInv(s: Sys, act: Action, s': Sys)
    requires Inv(s) && Step(s, act, s')
    ensures Inv(s')
  {
    match act
    case Pass(x, o) => PassKeepsInv(s, x, o, s');
    case Wake(x) => WakeKeepsInv(s, x, s');
    case Release(x) => ReleaseKeepsInv(s, x, s');
    case Relock(row, x) => RelockKeepsInv(s, row, x, s');
    case _ => forall y | y in s'.calls ensures CallOk(s', y) { if y in s.calls { assert CallOk(s, y); } }
  }

  lemma {:induction false} RunKeepsInv(states: seq<Sys>, acts: seq<Action>, i: nat)
    requires Run(states, acts) && i < |states|
    ensures Inv(states[i])
  {
    if i == 0 {
      forall a: Xid, n: nat | n > 0 ensures !Walk(INIT.t.waitFor, a, a, n) {}
    } else {
      RunKeepsInv(states, acts, i - 1);
      StepKeepsInv(states[i - 1], acts[i - 1], states[i]);
    }
  }

  // ---- What every run guarantees ------------------------------------------------------------

  /** The wait-for graph is acyclic in every reachable state, and every lock has a holder, an
      exclusive one exactly one. */
  lemma AlwaysAcyclic(states: seq<Sys>, acts: seq<Action>, i: nat)
    requires Run(states, acts) && i < |states|
    ensures Acyclic(states[i].t.waitFor)
    ensures forall row | row in states[i].t.locks ::
              var lock := states[i].t.locks[row];
              |lock.holders| >= 1 && (lock.mode == Exclusive ==> |lock.holders| == 1)
  {
    RunKeepsInv(states, acts, i);
    forall row | row in states[i].t.locks
      ensures var lock := states[i].t.locks[row];
              |lock.holders| >= 1 && (lock.mode == Exclusive ==> |lock.holders| == 1)
    {
      var lock := states[i].t.locks[row];
      var h :| h in lock.holders;
      if lock.mode == Exclusive { assert lock.holders == {h}; }
    }
  }

  /** LOCK PROGRESS: a parked waiter nobody has notified is registered under a current holder of
      its row that blocks it, and its wait chain ends at a transaction that is not parked. So a
      waiter whose row it could take has always been notified. */
  lemma Progress(states: seq<Sys>, acts: seq<Action>, i: nat, x: Xid) returns (y: Xid, k: nat)
    requires Run(states, acts) && i < |states| && x in states[i].calls
    requires var s := states[i]; s.calls[x].phase.Parked? && s.calls[x].phase.n !in s.waking && s.calls[x].phase.n !in s.permits
    ensures var s := states[i]; Registered(s.t, s.calls[x].row, s.calls[x].mode, x, s.calls[x].phase.n)
    ensures var s := states[i];
            && k > 0 && Walk(s.t.waitFor, x, y, k) && y !in s.t.waitFor
            && (y in s.calls ==> !s.calls[y].phase.Parked?)
  {
    RunKeepsInv(states, acts, i);
    var s := states[i];
    assert CallOk(s, x);
    y, k := ChainEnds(s.t.waitFor, x);
    if y in s.calls { assert CallOk(s, y); }
  }
}
