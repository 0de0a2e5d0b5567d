/** Where at-most-one-live and repeatable reads stop: the exact condition for each. */
module MvccLimits {
  import opened Base
  import opened Visibility
  import opened Mvcc

  /** Two versions of the row are visible at once. */
  ghost predicate TwoLive(vs: map<Xid, Version>, v: View, snap: Snapshot, own: Option<Xid>) {
    exists a, b :: a != b && VisibleIn(vs, v, snap, own, a) && VisibleIn(vs, v, snap, own, b)
  }

  /** A writer that is not aborted is hidden between a visible earlier one and a live version. */
  ghost predicate Gap(tx: Txns, w: map<Xid, nat>, vs: map<Xid, Version>, v: View, snap: Snapshot, own: Option<Xid>,
                      a: Xid, m: Xid, b: Xid)
  {
    && Earlier(w, a, m) && Earlier(w, m, b) && Alive(tx, m)
    && CommittedVisible(v, snap, own, a) && !CommittedVisible(v, snap, own, m) && VisibleIn(vs, v, snap, own, b)
  }

  /** Only writers that are not aborted are visible. */
  ghost predicate SeesOnlyAlive(tx: Txns, w: map<Xid, nat>, v: View, snap: Snapshot, own: Option<Xid>) {
    forall a | a in w && CommittedVisible(v, snap, own, a) :: Alive(tx, a)
  }

  /** Along the chain from a visible writer to a hidden one, some version in between is live. */
  lemma {:induction false} LiveBefore(tx: Txns, w: map<Xid, nat>, vs: map<Xid, Version>, v: View, snap: Snapshot,
                                      own: Option<Xid>, a: Xid, m: Xid) returns (l: Xid)
    requires OrderOk(tx, w) && ChainOk(tx, w, vs) && Earlier(w, a, m) && Alive(tx, a) && Alive(tx, m)
    requires SeesOnlyAlive(tx, w, v, snap, own)
    requires CommittedVisible(v, snap, own, a) && !CommittedVisible(v, snap, own, m)
    ensures VisibleIn(vs, v, snap, own, l) && l in w && w[l] < w[m]
    decreases w[m] - w[a]
  {
    assert LeadsTo(tx, w, vs, a, m);
    var n := vs[a].xmax;
    if CommittedVisible(v, snap, own, n) {
      assert Earlier(w, n, m);
      l := LiveBefore(tx, w, vs, v, snap, own, n, m);
    } else {
      l := a;
    }
  }

  /** Whatever snapshot, replica and global snapshot a read uses, it sees two versions of a row
      exactly when it misses a writer between two that it sees. */
  lemma TwoLiveIffGap(tx: Txns, w: map<Xid, nat>, vs: map<Xid, Version>, v: View, snap: Snapshot, own: Option<Xid>)
    requires OrderOk(tx, w) && ChainOk(tx, w, vs) && SeesOnlyAlive(tx, w, v, snap, own)
    ensures TwoLive(vs, v, snap, own) <==> exists a, m, b :: Gap(tx, w, vs, v, snap, own, a, m, b)
  {
    if exists a, m, b :: Gap(tx, w, vs, v, snap, own, a, m, b) {
      var a, m, b :| Gap(tx, w, vs, v, snap, own, a, m, b);
      var l := LiveBefore(tx, w, vs, v, snap, own, a, m);
      assert l != b && VisibleIn(vs, v, snap, own, b);
    }
    if TwoLive(vs, v, snap, own) {
      var a, b :| a != b && VisibleIn(vs, v, snap, own, a) && VisibleIn(vs, v, snap, own, b);
      var lo, hi := if w[a] < w[b] then a else b, if w[a] < w[b] then b else a;
      assert Earlier(w, lo, hi) && LeadsTo(tx, w, vs, lo, hi);
      assert vs[lo].xmax != hi;
      assert Gap(tx, w, vs, v, snap, own, lo, vs[lo].xmax, hi);
    }
  }

  // ---- Repeatable reads ---------------------------------------------------------------------

  /** A reused snapshot sees a transaction differently in a later replica state exactly when it
      is another participant's marker, below the global snapshot, whose global transaction was
      undecided before and is committed now. */
  lemma RepeatableIff(v: View, v': View, snap: Snapshot, own: Option<Xid>, x: Xid)
    requires Agrees(v.decided, v'.decided) && v'.gsnap == v.gsnap
    requires !snap.IsRunning(x) ==> ClogGet(v'.clog, x) == ClogGet(v.clog, x)
    ensures CommittedVisible(v, snap, own, x) != CommittedVisible(v', snap, own, x) <==>
            (own != Some(x) && !snap.IsRunning(x) && ClogGet(v.clog, x).Prepared? &&
             var g := ClogGet(v.clog, x).g;
             !v.gsnap.IsRunning(g) && g !in v.decided && g in v'.decided && v'.decided[g])
  {}

  /** In every run a transaction a snapshot does not list as running keeps its clog record. */
  lemma FinishedIsFixed(db: Db, act: Action, rd: Reader, x: Xid)
    requires TxnsOk(db.tx) && FloorOk(db.tx, rd) && Enabled(db, act) && !rd.snap.IsRunning(x)
    ensures ClogGet(Apply(db, act).tx.clog, x) == ClogGet(db.tx.clog, x)
  {}

  // ---- The guarded write step does happen ---------------------------------------------------

  /** Transaction 2 has scanned and locked row 7, which transaction 1 inserted and committed. */
  const OPEN := Txns(map[1 := Committed], map[], {2}, 3, 1)
  const FIRST: map<Xid, Version> := map[1 := Version(INVALID_XID, [10])]
  const WRITER := Reader(Some(2), Snapshot(3, {2}), 1, {}, map[7 := 1], {})
  const READY := Db(OPEN, map[7 := FIRST], map[7 := map[1 := 0]], 1, map[7 := 2], true, map[0 := WRITER])

  lemma ReadyRow()
    ensures RowOk(OPEN, 1, Some(2), true, map[1 := 0], FIRST)
  {}

  lemma ReadyReader()
    ensures ReaderOk(OPEN, map[7 := map[1 := 0]], WRITER) && ReaderClosed(OPEN, map[7 := map[1 := 0]], WRITER)
  {}

  lemma ReadyInv()
    ensures Inv(READY)
  {
    ReadyRow();
    ReadyReader();
  }

  lemma ReadyRecheck(rr: bool)
    ensures EvalPlanQual(FIRST, LockView(OPEN, map[]), WRITER.snap, Current(OPEN), 2, rr, Operate(1))
  {
    var v := LockView(OPEN, map[]);
    assert !ChangedSince(FIRST, v, WRITER.snap, 2);
    assert Finds(FIRST, v, WRITER.snap, Some(2), Some(1)) && ToRecheck(Some(1)) == Operate(1);
  }

  lemma ReadyLocked()
    ensures Locked(READY, 0, 7, 2) && ReplicaFor(OPEN, WRITER, map[]) && CaughtUp(OPEN, map[1 := 0], map[])
  {}

  /** The guards of the state machine can be met: both isolation levels rewrite version 1. */
  lemma WriteHappens(rr: bool)
    ensures Inv(READY) && CanWrite(READY, 0, 7, 2, rr, map[], 1)
  {
    ReadyInv();
    ReadyLocked();
    ReadyRecheck(rr);
  }
}
