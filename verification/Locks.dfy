/** The row-lock manager: per-row shared and exclusive locks, a single-successor wait-for graph
    with an eager cycle check, and waiters that register and park under one guard. */
module Locks {
  type Xid = nat
  type Notify = nat

  datatype Row = Row(table: nat, rowid: nat)
  datatype Mode = Shared | Exclusive
  datatype RowLock = RowLock(mode: Mode, holders: set<Xid>)
  datatype Acquire = Acquired | Conflict(holder: Xid)

  /** The guarded state: locks, each holder's registered waiters, and the wait-for graph. */
  datatype Table = Table(locks: map<Row, RowLock>, waiters: map<Xid, seq<Notify>>, waitFor: map<Xid, Xid>)

  // ---- The wait-for graph -----------------------------------------------------------------

  /** The wait chain from `a` is at `b` after `n` edges. */
  ghost predicate Walk(m: map<Xid, Xid>, a: Xid, b: Xid, n: nat)
    decreases n
  {
    if n == 0 then a == b else a in m && Walk(m, m[a], b, n - 1)
  }

  ghost predicate Reaches(m: map<Xid, Xid>, a: Xid, b: Xid) { exists n: nat :: Walk(m, a, b, n) }

  ghost predicate Acyclic(m: map<Xid, Xid>) { forall a: Xid, n: nat | n > 0 :: !Walk(m, a, a, n) }

  lemma {:induction false} WalkOn(m: map<Xid, Xid>, a: Xid, b: Xid, n: nat)
    requires Walk(m, a, b, n) && b in m
    ensures Walk(m, a, m[b], n + 1)
    decreases n
  {
    if n == 0 {
      assert Walk(m, m[a], m[b], 0);
    } else {
      WalkOn(m, m[a], b, n - 1);
    }
  }

  /** Nothing outside a closed set is reachable from inside it. */
  lemma {:induction false} ClosedWalk(m: map<Xid, Xid>, s: set<Xid>, a: Xid, b: Xid, n: nat)
    requires a in s && forall y | y in s && y in m :: m[y] in s
    requires Walk(m, a, b, n)
    ensures b in s
    decreases n
  {
    if n > 0 { ClosedWalk(m, s, m[a], b, n - 1); }
  }

  /** `check_cycle`: walks the chain from `holder` and answers whether it meets `x`. It ends on
      every graph, a cyclic one included. */
  method CheckCycle(waitFor: map<Xid, Xid>, holder: Xid, x: Xid) returns (deadlock: bool)
    ensures deadlock <==> Reaches(waitFor, holder, x)
  {
    var cur, seen := holder, {};
    ghost var k: nat := 0;
    while true
      invariant Walk(waitFor, holder, cur, k)
      invariant x !in seen && seen <= waitFor.Keys
      invariant holder == cur || holder in seen
      invariant forall y | y in seen :: waitFor[y] == cur || waitFor[y] in seen
      decreases waitFor.Keys - seen
    {
      if cur == x {
        return true;
      }
      if cur in seen || cur !in waitFor {
        forall n: nat ensures !Walk(waitFor, holder, x, n) {
          if Walk(waitFor, holder, x, n) { ClosedWalk(waitFor, seen + {cur}, holder, x, n); }
        }
        return false;
      }
      WalkOn(waitFor, holder, cur, k);
      seen, cur, k := seen + {cur}, waitFor[cur], k + 1;
    }
  }

  /** Redirecting `x` cannot matter to a walk that never meets `x`. */
  lemma {:induction false} WalkBefore(m: map<Xid, Xid>, x: Xid, h: Xid, a: Xid, b: Xid, n: nat) returns (k: nat)
    requires Walk(m[x := h], a, b, n) && !Walk(m, a, b, n)
    ensures k < n && Walk(m, a, x, k) && Walk(m[x := h], h, b, n - k - 1)
    decreases n
  {
    if a == x {
      k := 0;
    } else {
      k := WalkBefore(m, x, h, m[a], b, n - 1);
      k := k + 1;
    }
  }

  lemma {:induction false} WalkJoin(m: map<Xid, Xid>, a: Xid, b: Xid, c: Xid, i: nat, j: nat)
    requires Walk(m, a, b, i) && Walk(m, b, c, j)
    ensures Walk(m, a, c, i + j)
    decreases i
  {
    if i > 0 { WalkJoin(m, m[a], b, c, i - 1, j); }
  }

  /** In the graph with the edge from `x` redirected to `h`, a walk from `h` back to `x` would
      already be one in the old graph. */
  lemma {:induction false} NoReturn(m: map<Xid, Xid>, x: Xid, h: Xid, n: nat)
    requires !Reaches(m, h, x)
    ensures !Walk(m[x := h], h, x, n)
    decreases n
  {
    if Walk(m[x := h], h, x, n) {
      assert !Walk(m, h, x, n);
      var _ := WalkBefore(m, x, h, h, x, n);
    }
  }

  /** An edge the cycle check lets through keeps the graph acyclic. */
  lemma NewEdgeAcyclic(m: map<Xid, Xid>, x: Xid, h: Xid)
    requires Acyclic(m) && !Reaches(m, h, x)
    ensures Acyclic(m[x := h])
  {
    var m' := m[x := h];
    forall a: Xid, n: nat | n > 0 ensures !Walk(m', a, a, n) {
      if Walk(m', a, a, n) {
        var k := WalkBefore(m, x, h, a, a, n);
        SameUpTo(m, x, h, a, k);
        WalkJoin(m', h, a, x, n - k - 1, k);
        NoReturn(m, x, h, n - 1);
      }
    }
  }

  /** A walk in the old graph to `x` has a counterpart in the redirected graph. */
  lemma {:induction false} SameUpTo(m: map<Xid, Xid>, x: Xid, h: Xid, a: Xid, k: nat)
    requires Walk(m, a, x, k) && Acyclic(m)
    ensures Walk(m[x := h], a, x, k)
    decreases k
  {
    if k > 0 {
      assert a != x;
      SameUpTo(m, x, h, m[a], k - 1);
    }
  }

  lemma {:induction false} FewerEdgesWalk(m: map<Xid, Xid>, x: Xid, a: Xid, b: Xid, n: nat)
    requires Walk(m - {x}, a, b, n)
    ensures Walk(m, a, b, n)
    decreases n
  {
    if n > 0 { FewerEdgesWalk(m, x, m[a], b, n - 1); }
  }

  lemma FewerEdgesAcyclic(m: map<Xid, Xid>, x: Xid)
    requires Acyclic(m)
    ensures Acyclic(m - {x})
  {
    forall a: Xid, n: nat | n > 0 ensures !Walk(m - {x}, a, a, n) {
      if Walk(m - {x}, a, a, n) { FewerEdgesWalk(m, x, a, a, n); }
    }
  }

  ghost predicate Precedes(m: map<Xid, Xid>, a: Xid, b: Xid) { exists k: nat :: k > 0 && Walk(m, a, b, k) }

  /** Every wait chain of an acyclic graph ends at a transaction that waits for nobody. */
  lemma ChainEnds(m: map<Xid, Xid>, x: Xid) returns (y: Xid, n: nat)
    requires Acyclic(m)
    ensures y !in m && Walk(m, x, y, n)
  {
    y, n := x, 0;
    var seen: set<Xid> := {};
    while y in m
      invariant Walk(m, x, y, n) && seen <= m.Keys
      invariant forall z | z in seen :: Precedes(m, z, y)
      decreases m.Keys - seen
    {
      assert y !in seen;
      var next := m[y];
      forall z | z in seen + {y} ensures Precedes(m, z, next) {
        var k: nat :| Walk(m, z, y, k) by { assert Walk(m, y, y, 0); }
        WalkOn(m, z, y, k);
      }
      WalkOn(m, x, y, n);
      seen, y, n := seen + {y}, next, n + 1;
    }
  }

  // ---- One guarded section ------------------------------------------------------------------

  /** A request that must wait: another holder stands in the way of `x`. */
  predicate Blocked(lock: RowLock, mode: Mode, x: Xid) {
    if x in lock.holders then mode == Exclusive && lock.mode == Shared && lock.holders != {x}
    else mode == Exclusive || lock.mode == Exclusive
  }

  function Granted(locks: map<Row, RowLock>, row: Row, mode: Mode, x: Xid): map<Row, RowLock> {
    if row !in locks then locks[row := RowLock(mode, {x})]
    else if x !in locks[row].holders then locks[row := locks[row].(holders := locks[row].holders + {x})]
    else if mode == Exclusive then locks[row := locks[row].(mode := Exclusive)]
    else locks
  }

  datatype Outcome = Grant | Deadlock | Park(holder: Xid)

  /** One pass of `acquire` through its guard, registering notifier `n` if it parks. */
  ghost predicate Attempt(t: Table, row: Row, mode: Mode, x: Xid, n: Notify, o: Outcome, t': Table) {
    var blocked := row in t.locks && Blocked(t.locks[row], mode, x);
    match o
    case Grant => !blocked && t' == t.(locks := Granted(t.locks, row, mode, x), waitFor := t.waitFor - {x})
    case Deadlock =>
      && blocked && t' == t.(waitFor := t.waitFor - {x})
      && exists h :: h in t.locks[row].holders && h != x && Reaches(t.waitFor, h, x)
    case Park(h) =>
      && blocked && h in t.locks[row].holders && h != x && !Reaches(t.waitFor, h, x)
      && t' == t.(waitFor := t.waitFor[x := h], waiters := t.waiters[h := WaitersOf(t.waiters, h) + [n]])
  }

  function WaitersOf(waiters: map<Xid, seq<Notify>>, h: Xid): seq<Notify> { if h in waiters then waiters[h] else [] }

  function Remaining(locks: map<Row, RowLock>, x: Xid): map<Row, RowLock> {
    map row | row in locks && locks[row].holders - {x} != {} :: locks[row].(holders := locks[row].holders - {x})
  }

  function Released(t: Table, x: Xid): Table {
    Table(Remaining(t.locks, x), t.waiters - {x}, t.waitFor - {x})
  }

  function Relocked(locks: map<Row, RowLock>, row: Row, x: Xid): map<Row, RowLock> {
    locks[row := RowLock(Exclusive, (if row in locks then locks[row].holders else {}) + {x})]
  }

  predicate Holds(locks: map<Row, RowLock>, row: Row, x: Xid) { row in locks && x in locks[row].holders }

  /** A release leaves `x` holding nothing and everybody else what they held. */
  lemma ReleaseTakes(locks: map<Row, RowLock>, x: Xid)
    ensures forall q, y :: Holds(Remaining(locks, x), q, y) <==> Holds(locks, q, y) && y != x
    ensures forall q | q in Remaining(locks, x) :: q in locks && Remaining(locks, x)[q].mode == locks[q].mode
  {
    forall q, y ensures Holds(Remaining(locks, x), q, y) <==> Holds(locks, q, y) && y != x {
      if Holds(locks, q, y) && y != x { assert y in locks[q].holders - {x}; }
    }
  }

  class RowLockManager {
    var locks: map<Row, RowLock>
    var waiters: map<Xid, seq<Notify>>
    var waitFor: map<Xid, Xid>

    ghost function State(): Table
      reads this
    {
      Table(locks, waiters, waitFor)
    }

    constructor ()
      ensures State() == Table(map[], map[], map[])
    {
      locks, waiters, waitFor := map[], map[], map[];
    }

    /** `try_acquire_locked`. */
    method TryAcquire(row: Row, mode: Mode, x: Xid) returns (a: Acquire)
      requires forall r | r in locks :: locks[r].holders != {}
      modifies this`locks
      ensures a.Acquired? <==>
              || row !in old(locks) || old(locks)[row].holders <= {x}
              || (mode == Shared && old(locks)[row].mode == Shared)
              || (x in old(locks)[row].holders && (mode == Shared || old(locks)[row].mode == Exclusive))
      ensures a.Acquired? ==>
              && locks.Keys == old(locks).Keys + {row}
              && locks[row].holders == (if row in old(locks) then old(locks)[row].holders else {}) + {x}
              && (locks[row].mode == Shared <==> mode == Shared && (row in old(locks) ==> old(locks)[row].mode == Shared))
              && forall q | q in old(locks) && q != row :: locks[q] == old(locks)[q]
      ensures a.Conflict? ==> locks == old(locks) && a.holder in locks[row].holders && a.holder != x
      ensures a.Acquired? <==> !(row in old(locks) && Blocked(old(locks)[row], mode, x))
      ensures a.Acquired? ==> locks == Granted(old(locks), row, mode, x)
    {
      if row !in locks {
        locks := locks[row := RowLock(mode, {x})];
        return Acquired;
      }
      var lock := locks[row];
      if x in lock.holders {
        if mode == Exclusive && lock.mode == Shared {
          if |lock.holders| == 1 {
            assert |lock.holders - {x}| == 0;
            locks := locks[row := lock.(mode := Exclusive)];
            return Acquired;
          }
          assert lock.holders != {x};
          assert exists h :: h in lock.holders && h != x by { assert lock.holders - {x} != {}; }
          var other :| other in lock.holders && other != x;
          return Conflict(other);
        }
        assert mode == Exclusive ==> locks == locks[row := lock.(mode := Exclusive)];
        return Acquired;
      }
      if mode == Shared && lock.mode == Shared {
        locks := locks[row := lock.(holders := lock.holders + {x})];
        return Acquired;
      }
      assert exists h :: h in lock.holders;
      var holder :| holder in lock.holders;
      return Conflict(holder);
    }

    /** The guarded section of one iteration of `acquire`. */
    method AcquireOnce(row: Row, mode: Mode, x: Xid, n: Notify) returns (o: Outcome)
      requires forall r | r in locks :: locks[r].holders != {}
      modifies this
      ensures o.Grant? <==>
              || row !in old(locks) || old(locks)[row].holders <= {x}
              || (mode == Shared && old(locks)[row].mode == Shared)
              || (x in old(locks)[row].holders && (mode == Shared || old(locks)[row].mode == Exclusive))
      ensures o.Park? ==>
              && o.holder != x && o.holder in old(locks)[row].holders && waitFor == old(waitFor)[x := o.holder]
              && waiters.Keys == old(waiters).Keys + {o.holder}
              && waiters[o.holder] == (if o.holder in old(waiters) then old(waiters)[o.holder] else []) + [n]
              && forall h | h in old(waiters) && h != o.holder :: waiters[h] == old(waiters)[h]
      ensures !o.Park? ==> waitFor == old(waitFor) - {x} && waiters == old(waiters)
      ensures !o.Grant? ==> locks == old(locks)
      ensures Attempt(old(State()), row, mode, x, n, o, State())
    {
      var a := TryAcquire(row, mode, x);
      match a
      case Acquired =>
        waitFor := waitFor - {x};
        return Grant;
      case Conflict(h) =>
        var deadlock := CheckCycle(waitFor, h, x);
        if deadlock {
          waitFor := waitFor - {x};
          return Deadlock;
        }
        waitFor := waitFor[x := h];
        waiters := waiters[h := WaitersOf(waiters, h) + [n]];
        return Park(h);
    }

    /** The guarded section of `release_all`; the caller wakes `toWake` afterwards. */
    method ReleaseAll(x: Xid) returns (toWake: seq<Notify>)
      modifies this
      ensures State() == Released(old(State()), x)
      ensures forall q :: q in locks <==> q in old(locks) && old(locks)[q].holders - {x} != {}
      ensures forall q | q in locks :: locks[q] == RowLock(old(locks)[q].mode, old(locks)[q].holders - {x})
      ensures forall q, y :: Holds(locks, q, y) <==> Holds(old(locks), q, y) && y != x
      ensures forall y :: y in waitFor <==> y in old(waitFor) && y != x
      ensures forall y | y in waitFor :: waitFor[y] == old(waitFor)[y]
      ensures toWake == if x in old(waiters) then old(waiters)[x] else []
      ensures forall h :: h in waiters <==> h in old(waiters) && h != x
      ensures forall h | h in waiters :: waiters[h] == old(waiters)[h]
    {
      ReleaseTakes(locks, x);
      toWake := WaitersOf(waiters, x);
      locks, waitFor, waiters := Remaining(locks, x), waitFor - {x}, waiters - {x};
    }

    method ReacquireExclusive(row: Row, x: Xid)
      modifies this`locks
      ensures locks.Keys == old(locks).Keys + {row}
      ensures locks[row] == RowLock(Exclusive, (if row in old(locks) then old(locks)[row].holders else {}) + {x})
      ensures forall q | q in old(locks) && q != row :: locks[q] == old(locks)[q]
      ensures locks == Relocked(old(locks), row, x)
    {
      if row !in locks { locks := locks[row := RowLock(Exclusive, {})]; }
      locks := locks[row := RowLock(Exclusive, locks[row].holders + {x})];
    }
  }
}
