/** Exactly which steps, and which runs, keep the invariant; those that do show at most one live
    version of any row and re-check a locked row exactly. */
module MvccRuns {
  import opened Base
  import opened Visibility
  import opened Mvcc

  // ---- Steps on the transaction registry --------------------------------------------------

  /** Outcomes only become more final. */
  ghost predicate Evolves(tx: Txns, tx': Txns) {
    && tx.nextXid <= tx'.nextXid && tx.nextGlobal <= tx'.nextGlobal && tx.decided.Keys <= tx'.decided.Keys
    && (forall x: Xid | x < tx.nextXid :: Won(tx, x) ==> Won(tx', x))
    && (forall x: Xid | x < tx.nextXid :: Quiet(tx, x) ==> Quiet(tx', x) && ClogGet(tx'.clog, x) == ClogGet(tx.clog, x))
    && (forall x: Xid | x < tx.nextXid :: Alive(tx', x) ==> Alive(tx, x))
    && (forall x | x in tx'.running :: x in tx.running || x >= tx.nextXid)
    && (forall x | x in tx'.clog && tx'.clog[x].Prepared? :: ClogGet(tx.clog, x) == tx'.clog[x] || x in tx.running)
  }

  lemma EvolveOrder(tx: Txns, tx': Txns, clock: nat, w: map<Xid, nat>, vs: map<Xid, Version>)
    requires StampsOk(tx, clock, w) && OrderOk(tx, w) && ChainOk(tx, w, vs) && Evolves(tx, tx')
    ensures StampsOk(tx', clock, w) && OrderOk(tx', w) && ChainOk(tx', w, vs)
  {
    forall a, b | Earlier(w, a, b) && Alive(tx', a) && Joins(tx', w, b) ensures LeadsTo(tx', w, vs, a, b) {
      assert LeadsTo(tx, w, vs, a, b);
      var m := vs[a].xmax;
      if m != b { assert Earlier(w, m, b); }
    }
  }

  lemma EvolveLock(tx: Txns, tx': Txns, clock: nat, holder: Option<Xid>, serving: bool, w: map<Xid, nat>)
    requires StampsOk(tx, clock, w) && LockOk(tx, holder, serving, w) && Evolves(tx, tx')
    ensures LockOk(tx', holder, serving, w)
  {}

  lemma EvolveClosed(tx: Txns, tx': Txns, clock: nat, rd: Reader, w: map<Xid, nat>)
    requires StampsOk(tx, clock, w) && OrderOk(tx, w) && ClosedOk(tx, rd, w) && Evolves(tx, tx')
    ensures ClosedOk(tx', rd, w)
  {
    forall a, b | Earlier(w, a, b) && rd.Sees(b) && Alive(tx', a) ensures Covers(tx', rd, a) {
      assert Covers(tx, rd, a);
    }
  }

  lemma EvolveFloor(tx: Txns, tx': Txns, clock: nat, wrote: map<RowId, map<Xid, nat>>, rd: Reader)
    requires TxnsOk(tx) && ReaderOk(tx, wrote, rd) && Evolves(tx, tx')
    requires forall r | r in wrote :: StampsOk(tx, clock, wrote[r])
    ensures ReaderOk(tx', wrote, rd)
  {}

  /** The step keeps the core, and with it the closure of every snapshot. */
  ghost predicate Keeps(db: Db, db': Db) { Core(db') && (Closed(db) ==> Closed(db')) }

  lemma StepTxns(db: Db, tx': Txns)
    requires Core(db) && Evolves(db.tx, tx') && TxnsOk(tx')
    ensures Keeps(db, db.(tx := tx'))
  {
    var db' := db.(tx := tx');
    forall r | r in db'.wrote && r in db'.rows ensures RowIn(db', r) {
      assert RowIn(db, r);
      EvolveOrder(db.tx, tx', db.clock, db.wrote[r], db.rows[r]);
      EvolveLock(db.tx, tx', db.clock, Holder(db, r), db.serving, db.wrote[r]);
    }
    forall i | i in db'.readers ensures ReaderOk(tx', db'.wrote, db'.readers[i]) {
      forall r | r in db.wrote ensures StampsOk(db.tx, db.clock, db.wrote[r]) { assert RowIn(db, r); }
      EvolveFloor(db.tx, tx', db.clock, db.wrote, db.readers[i]);
    }
    if Closed(db) { TxnsClosed(db, tx'); }
  }

  lemma TxnsClosed(db: Db, tx': Txns)
    requires Inv(db) && Evolves(db.tx, tx')
    ensures Closed(db.(tx := tx'))
  {
    forall i, r | i in db.readers && r in db.wrote && r !in db.readers[i].done
      ensures ClosedOk(tx', db.readers[i], db.wrote[r])
    {
      assert RowIn(db, r) && ReaderClosed(db.tx, db.wrote, db.readers[i]);
      EvolveClosed(db.tx, tx', db.clock, db.readers[i], db.wrote[r]);
    }
  }

  lemma BeginEvolves(tx: Txns)
    requires TxnsOk(tx)
    ensures Evolves(tx, DoBegin(tx)) && TxnsOk(DoBegin(tx))
  {}

  lemma RecordEvolves(tx: Txns, x: Xid, s: Status)
    requires TxnsOk(tx) && Active(tx, x) && (s.Prepared? ==> s.g < tx.nextGlobal)
    ensures Evolves(tx, tx.(clog := tx.clog[x := s])) && TxnsOk(tx.(clog := tx.clog[x := s]))
  {}

  lemma DeregisterEvolves(tx: Txns, gone: set<Xid>)
    requires TxnsOk(tx)
    ensures Evolves(tx, tx.(running := tx.running - gone)) && TxnsOk(tx.(running := tx.running - gone))
  {}

  lemma DecideEvolves(tx: Txns, g: Xid, commit: bool)
    requires TxnsOk(tx) && g < tx.nextGlobal && g !in tx.decided
    ensures Evolves(tx, tx.(decided := tx.decided[g := commit])) && TxnsOk(tx.(decided := tx.decided[g := commit]))
  {}

  // ---- Steps on the lock table and the gate ---------------------------------------------

  lemma StepLocks(db: Db, db': Db)
    requires Core(db) && db' == db.(locks := db'.locks, serving := db'.serving) && DomainsOk(db')
    requires forall r | r in db.wrote :: LockOk(db.tx, Holder(db', r), db'.serving, db.wrote[r])
    ensures Keeps(db, db')
  {
    forall r | r in db'.wrote && r in db'.rows ensures RowIn(db', r) { assert RowIn(db, r); }
  }

  /** Whoever may lock a scanned row finds every other writer of it finished. */
  lemma LockedIsFinished(tx: Txns, rd: Reader, holder: Option<Xid>, w: map<Xid, nat>, a: Xid, x: Xid)
    requires LockOk(tx, holder, true, w) && rd.own == Some(x)
    requires a in w && rd.Sees(a) && (a == x || Won(tx, a))
    requires forall y | y in tx.running :: rd.snap.IsRunning(y)
    requires holder.Some? ==> holder == Some(x)
    ensures LockOk(tx, Some(x), true, w)
  {}

  lemma StepLock(db: Db, id: nat, r: RowId, x: Xid)
    requires Core(db) && CanLock(db, id, r, x)
    ensures Keeps(db, db.(locks := db.locks[r := x]))
  {
    var db' := db.(locks := db.locks[r := x]);
    assert ReaderOk(db.tx, db.wrote, db.readers[id]);
    forall q | q in db.wrote ensures LockOk(db.tx, Holder(db', q), db.serving, db.wrote[q]) {
      assert RowIn(db, q);
      RelockedRow(db, id, r, x, q);
    }
    StepLocks(db, db');
  }

  lemma RelockedRow(db: Db, id: nat, r: RowId, x: Xid, q: RowId)
    requires CanLock(db, id, r, x) && ReaderOk(db.tx, db.wrote, db.readers[id])
    requires q in db.wrote && LockOk(db.tx, Holder(db, q), db.serving, db.wrote[q])
    ensures LockOk(db.tx, Holder(db.(locks := db.locks[r := x]), q), db.serving, db.wrote[q])
  {
    if q == r { GrantedLock(db.tx, db.wrote, db.readers[id], Holder(db, r), r, x); }
  }

  lemma GrantedLock(tx: Txns, wrote: map<RowId, map<Xid, nat>>, rd: Reader, holder: Option<Xid>, r: RowId, x: Xid)
    requires FloorOk(tx, rd) && SeenOk(tx, wrote, rd) && rd.own == Some(x) && r in rd.seen && r in wrote
    requires LockOk(tx, holder, true, wrote[r]) && (holder.Some? ==> holder == Some(x))
    ensures LockOk(tx, Some(x), true, wrote[r])
  {
    LockedIsFinished(tx, rd, holder, wrote[r], rd.seen[r], x);
  }

  lemma StepRelease(db: Db, x: Xid)
    requires Core(db) && Quiet(db.tx, x)
    ensures Keeps(db, DoRelease(db, x))
  {
    var db' := DoRelease(db, x);
    forall r | r in db.wrote ensures LockOk(db.tx, Holder(db', r), db.serving, db.wrote[r]) { assert RowIn(db, r); }
    StepLocks(db, db');
  }

  lemma StepFailover(db: Db)
    requires Core(db)
    ensures Inv(DoFailover(db))
  {
    var quiet := db.tx.(running := {});
    assert db.tx.running - db.tx.running == {};
    DeregisterEvolves(db.tx, db.tx.running);
    StepTxns(db, quiet);
    var locked, free := db.(tx := quiet), db.(tx := quiet, locks := map[], serving := false);
    forall r | r in db.wrote ensures LockOk(quiet, None, false, db.wrote[r]) { assert RowIn(locked, r); }
    StepLocks(locked, free);
    assert Core(free) && DoFailover(db) == free.(readers := map[]);
    forall r | r in db.wrote && r in db.rows ensures RowIn(DoFailover(db), r) { assert RowIn(free, r); }
  }

  /** An unfinished writer holds the row's lock or is its only writer. */
  ghost predicate Guarded(tx: Txns, holder: Option<Xid>, w: map<Xid, nat>) {
    forall a | a in w && !Quiet(tx, a) :: holder == Some(a) || w.Keys == {a}
  }

  /** Every row with an unfinished writer is guarded: an inherited marker in doubt holds its row's
      lock, or wrote the row alone. */
  ghost predicate AllGuarded(db: Db) {
    forall r | r in db.wrote :: Guarded(db.tx, Holder(db, r), db.wrote[r])
  }

  /** Every marker's global transaction has a terminal decision. */
  predicate NoneInDoubt(tx: Txns) {
    forall x | x in tx.clog && tx.clog[x].Prepared? :: tx.clog[x].g in tx.decided
  }

  /** Opening the gate keeps the core exactly when every row is guarded. */
  lemma StepOpenGate(db: Db)
    requires Core(db)
    ensures Core(db.(serving := true)) <==> AllGuarded(db)
    ensures AllGuarded(db) ==> Keeps(db, db.(serving := true))
  {
    var db' := db.(serving := true);
    if AllGuarded(db) {
      forall r | r in db.wrote ensures LockOk(db.tx, Holder(db', r), true, db.wrote[r]) { assert RowIn(db, r); }
      StepLocks(db, db');
    }
    if Core(db') {
      forall r | r in db.wrote ensures Guarded(db.tx, Holder(db, r), db.wrote[r]) { assert RowIn(db', r); }
    }
  }

  /** A gate that opens with no marker in doubt finds every row guarded. */
  lemma SettledIsGuarded(db: Db)
    requires Core(db) && NoneInDoubt(db.tx)
    ensures AllGuarded(db)
  {
    forall r | r in db.wrote ensures Guarded(db.tx, Holder(db, r), db.wrote[r]) {
      assert RowIn(db, r);
      SettledRow(db.tx, Holder(db, r), db.serving, db.wrote[r]);
    }
  }

  lemma SettledRow(tx: Txns, holder: Option<Xid>, serving: bool, w: map<Xid, nat>)
    requires NoneInDoubt(tx) && LockOk(tx, holder, serving, w)
    ensures Guarded(tx, holder, w)
  {}

  // ---- A transaction that outlives a change of leader ---------------------------------------

  /** Nobody has written, since `x`, a row that `x` wrote. */
  ghost predicate Unfollowed(db: Db, x: Xid) {
    forall r | r in db.wrote && x in db.wrote[r] :: Newest(db.wrote[r], x)
  }

  lemma RejoinedLock(tx: Txns, holder: Option<Xid>, w: map<Xid, nat>, x: Xid)
    requires OrderOk(tx, w) && LockOk(tx, holder, false, w) && (x in w ==> Newest(w, x))
    ensures LockOk(tx.(running := tx.running + {x}), if x in w then Some(x) else holder, false, w)
  {
    forall a | a in w && a != x && x in w ensures Quiet(tx, a) {
      assert Earlier(w, a, x);
    }
  }

  lemma RejoinedOrder(tx: Txns, w: map<Xid, nat>, x: Xid)
    requires OrderOk(tx, w) && (x in w ==> Newest(w, x))
    ensures OrderOk(tx.(running := tx.running + {x}), w)
  {}

  lemma RejoinedChain(tx: Txns, w: map<Xid, nat>, vs: map<Xid, Version>, x: Xid)
    requires OrderOk(tx, w) && ChainOk(tx, w, vs) && x !in tx.clog && x !in tx.running
    requires x in w ==> Newest(w, x)
    ensures ChainOk(tx.(running := tx.running + {x}), w, vs)
  {
    var tx' := tx.(running := tx.running + {x});
    assert forall a: Xid | a != x :: Alive(tx', a) == Alive(tx, a);
    forall a, b | Earlier(w, a, b) && Alive(tx', a) && Joins(tx', w, b) ensures LeadsTo(tx', w, vs, a, b) {
      assert a != x;
      assert LeadsTo(tx, w, vs, a, b);
    }
    forall a, m | Supersedes(vs, a, m) && Joins(tx', w, m) ensures Alive(tx', a) && Earlier(w, a, m) {
      assert m == x ==> Newest(w, m);
    }
  }

  lemma RejoinedReader(tx: Txns, wrote: map<RowId, map<Xid, nat>>, rd: Reader, x: Xid)
    requires ReaderOk(tx, wrote, rd) && rd.snap.IsRunning(x)
    ensures ReaderOk(tx.(running := tx.running + {x}), wrote, rd)
  {}

  lemma RejoinedClosure(db: Db, x: Xid)
    requires Inv(db) && Unfollowed(db, x)
    ensures Closed(db.(tx := db.tx.(running := db.tx.running + {x})))
  {
    forall i, r | i in db.readers && r in db.wrote && r !in db.readers[i].done
      ensures ClosedOk(db.tx.(running := db.tx.running + {x}), db.readers[i], db.wrote[r])
    {
      assert ReaderClosed(db.tx, db.wrote, db.readers[i]);
      RejoinedClosed(db.tx, db.readers[i], db.wrote[r], x);
    }
  }

  lemma RejoinedClosed(tx: Txns, rd: Reader, w: map<Xid, nat>, x: Xid)
    requires ClosedOk(tx, rd, w) && (x in w ==> Newest(w, x))
    ensures ClosedOk(tx.(running := tx.running + {x}), rd, w)
  {
    var tx' := tx.(running := tx.running + {x});
    forall a, b | Earlier(w, a, b) && rd.Sees(b) && Alive(tx', a) ensures Covers(tx', rd, a) {
      assert a != x && Alive(tx, a);
      assert Covers(tx, rd, a);
    }
  }

  lemma RejoinedDomains(db: Db, x: Xid)
    requires DomainsOk(db)
    ensures DomainsOk(DoRejoin(db, x))
  {}

  lemma RejoinedLocks(db: Db, x: Xid, r: RowId)
    requires r in db.wrote
    ensures Holder(DoRejoin(db, x), r) == if x in db.wrote[r] then Some(x) else Holder(db, r)
  {}

  /** A row's invariant survives the return of its newest writer. */
  lemma RejoinedRow(db: Db, x: Xid, r: RowId)
    requires DomainsOk(db) && r in db.wrote && r in db.rows && RowIn(db, r) && CanRejoin(db, x)
    requires x in db.wrote[r] ==> Newest(db.wrote[r], x)
    ensures RowIn(DoRejoin(db, x), r)
  {
    RejoinedLocks(db, x, r);
    RejoinedLock(db.tx, Holder(db, r), db.wrote[r], x);
    RejoinedOrder(db.tx, db.wrote[r], x);
    RejoinedChain(db.tx, db.wrote[r], db.rows[r], x);
  }

  lemma RejoinKeeps(db: Db, x: Xid)
    requires Core(db) && CanRejoin(db, x) && Unfollowed(db, x)
    ensures Keeps(db, DoRejoin(db, x))
  {
    RejoinedDomains(db, x);
    forall r | r in db.wrote && r in db.rows ensures RowIn(DoRejoin(db, x), r) { RejoinedRow(db, x, r); }
    forall i | i in db.readers ensures ReaderOk(DoRejoin(db, x).tx, db.wrote, db.readers[i]) {
      RejoinedReader(db.tx, db.wrote, db.readers[i], x);
    }
    if Closed(db) { RejoinedClosure(db, x); }
    SameRows(db, DoRejoin(db, x));
  }

  lemma SameRows(db: Db, db': Db)
    requires db'.rows == db.rows && db'.wrote == db.wrote && db'.readers == db.readers
    requires TxnsOk(db'.tx) && DomainsOk(db') && (forall r | r in db.wrote && r in db.rows :: RowIn(db', r))
    requires forall i | i in db.readers :: ReaderOk(db'.tx, db.wrote, db.readers[i])
    requires Closed(db) ==> Closed(db.(tx := db'.tx))
    ensures Keeps(db, db')
  {}

  /** The core survives the return of a transaction exactly when nobody has written since a row
      that it wrote. */
  lemma StepRejoin(db: Db, x: Xid)
    requires Core(db) && CanRejoin(db, x)
    ensures Core(DoRejoin(db, x)) <==> Unfollowed(db, x)
    ensures Unfollowed(db, x) ==> Keeps(db, DoRejoin(db, x))
  {
    var db' := DoRejoin(db, x);
    if Unfollowed(db, x) {
      RejoinKeeps(db, x);
    } else if Core(db') {
      var r :| r in db.wrote && x in db.wrote[r] && !Newest(db.wrote[r], x);
      var c :| c in db.wrote[r] && db.wrote[r][c] > db.wrote[r][x];
      assert RowIn(db', r) && Earlier(db'.wrote[r], x, c);
      assert false;
    }
  }

  // ---- Steps of a reader ----------------------------------------------------------------

  lemma StepSnapshot(db: Db, id: nat, own: Option<Xid>)
    requires Core(db)
    ensures Keeps(db, DoSnapshot(db, id, own))
  {
    var rd := Reader(own, Current(db.tx), db.tx.nextGlobal, db.tx.decided.Keys, map[], {});
    forall r | r in db.wrote ensures ClosedOk(db.tx, rd, db.wrote[r]) {
      assert RowIn(db, r);
      SnapshotIsClosed(db.tx, db.clock, rd, db.wrote[r]);
    }
    StepReader(db, id, rd);
  }

  lemma SnapshotIsClosed(tx: Txns, clock: nat, rd: Reader, w: map<Xid, nat>)
    requires StampsOk(tx, clock, w) && OrderOk(tx, w) && rd.snap == Current(tx) && rd.dfloor == tx.decided.Keys
    ensures ClosedOk(tx, rd, w)
  {
    forall a, b | Earlier(w, a, b) && rd.Sees(b) && Alive(tx, a) ensures Covers(tx, rd, a) {
      assert Quiet(tx, a);
    }
  }

  lemma StepReader(db: Db, id: nat, rd: Reader)
    requires Core(db) && ReaderOk(db.tx, db.wrote, rd) && (Closed(db) ==> ReaderClosed(db.tx, db.wrote, rd))
    ensures Keeps(db, db.(readers := db.readers[id := rd]))
  {
    var db' := db.(readers := db.readers[id := rd]);
    forall r | r in db'.wrote && r in db'.rows ensures RowIn(db', r) { assert RowIn(db, r); }
  }

  lemma StepScan(db: Db, id: nat, r: RowId, gx: Xid, view: map<Xid, bool>, a: Xid)
    requires Core(db) && CanScan(db, id, r, gx, view, a)
    ensures Keeps(db, DoScan(db, id, r, a))
  {
    var rd := db.readers[id];
    assert RowIn(db, r) && ReaderOk(db.tx, db.wrote, rd);
    ScanSees(db.tx, db.wrote, rd, r, db.rows[r], gx, view, a);
    SameReaderClosed(db.tx, db.wrote, rd, rd.(seen := rd.seen[r := a]));
    StepReader(db, id, rd.(seen := rd.seen[r := a]));
  }

  lemma ScanSees(tx: Txns, wrote: map<RowId, map<Xid, nat>>, rd: Reader, r: RowId, vs: map<Xid, Version>,
                 gx: Xid, view: map<Xid, bool>, a: Xid)
    requires ReaderOk(tx, wrote, rd) && r in wrote && ChainOk(tx, wrote[r], vs) && Agrees(view, tx.decided)
    requires VisibleIn(vs, ReadView(tx, view, gx), rd.snap, rd.own, a)
    ensures ReaderOk(tx, wrote, rd.(seen := rd.seen[r := a]))
  {
    ResolvedStatus(tx, ReadView(tx, view, gx), a);
  }

  /** Closure depends on who reads under which snapshot, and grows with the decisions known. */
  lemma SameReaderClosed(tx: Txns, wrote: map<RowId, map<Xid, nat>>, rd: Reader, rd': Reader)
    requires rd'.own == rd.own && rd'.snap == rd.snap && rd.dfloor <= rd'.dfloor && rd.done <= rd'.done
    ensures ReaderClosed(tx, wrote, rd) ==> ReaderClosed(tx, wrote, rd')
  {
    if ReaderClosed(tx, wrote, rd) {
      forall q | q in wrote && q !in rd'.done ensures ClosedOk(tx, rd', wrote[q]) {
        assert ClosedOk(tx, rd, wrote[q]);
        forall a, b | Earlier(wrote[q], a, b) && rd'.Sees(b) && Alive(tx, a) ensures Covers(tx, rd', a) {
          assert rd.Sees(b) && Covers(tx, rd, a);
        }
      }
    }
  }

  // ---- Steps that write a row -------------------------------------------------------------

  /** The step writes row `r` and no other, and changes no outcome, lock or gate. */
  ghost predicate WritesOnly(db: Db, db': Db, r: RowId) {
    && db'.tx == db.tx && db'.locks == db.locks && db'.serving == db.serving && db'.clock == db.clock + 1
    && DomainsOk(db') && r in db'.rows && r in db'.wrote
    && (forall q | q in db'.wrote && q != r :: q in db.wrote && db'.wrote[q] == db.wrote[q])
    && (forall q | q in db'.rows && q != r :: q in db.rows && db'.rows[q] == db.rows[q])
  }

  /** A write to row `r` leaves the invariant of every other row untouched. */
  lemma StepWrite(db: Db, db': Db, r: RowId)
    requires TxnsOk(db.tx) && WritesOnly(db, db', r) && RowIn(db', r)
    requires forall q | q in db.wrote && q in db.rows :: RowIn(db, q)
    requires forall i | i in db'.readers :: ReaderOk(db.tx, db'.wrote, db'.readers[i])
    ensures Core(db')
  {
    forall q | q in db'.wrote && q in db'.rows ensures RowIn(db', q) {
      if q != r {
        assert RowIn(db, q);
        LaterClock(db.tx, db.clock, Holder(db, q), db.serving, db.wrote[q], db.rows[q]);
      }
    }
  }

  lemma LaterClock(tx: Txns, clock: nat, holder: Option<Xid>, serving: bool, w: map<Xid, nat>, vs: map<Xid, Version>)
    requires RowOk(tx, clock, holder, serving, w, vs)
    ensures RowOk(tx, clock + 1, holder, serving, w, vs)
  {}

  /** What a reader saw stays seen when one row gains a writer. */
  lemma ReaderAfterWrite(tx: Txns, wrote: map<RowId, map<Xid, nat>>, rd: Reader, r: RowId, w: map<Xid, nat>)
    requires ReaderOk(tx, wrote, rd) && (r in wrote ==> wrote[r].Keys <= w.Keys)
    ensures ReaderOk(tx, wrote[r := w], rd)
  {}

  lemma StepInsert(db: Db, x: Xid, r: RowId, row: Tuple)
    requires Core(db) && db.serving && Open(db.tx, x) && r !in db.rows && r !in db.wrote
    ensures Keeps(db, DoInsert(db, x, r, row))
  {
    var db' := DoInsert(db, x, r, row);
    InsertWritesOnly(db, x, r, row);
    InsertedRow(db.tx, db.clock, Holder(db', r), x, row);
    forall i | i in db'.readers ensures ReaderOk(db.tx, db'.wrote, db'.readers[i]) {
      ReaderAfterWrite(db.tx, db.wrote, db.readers[i], r, map[x := db.clock]);
    }
    StepWrite(db, db', r);
    if Closed(db) {
      forall i, q | i in db.readers && q in db'.wrote && q !in db.readers[i].done
        ensures ClosedOk(db.tx, db.readers[i], db'.wrote[q])
      {
        if q != r { assert ReaderClosed(db.tx, db.wrote, db.readers[i]); }
      }
    }
  }

  lemma InsertWritesOnly(db: Db, x: Xid, r: RowId, row: Tuple)
    requires DomainsOk(db)
    ensures WritesOnly(db, DoInsert(db, x, r, row), r)
  {}

  lemma InsertedRow(tx: Txns, clock: nat, holder: Option<Xid>, x: Xid, row: Tuple)
    requires TxnsOk(tx) && Open(tx, x) && holder == None
    ensures RowOk(tx, clock + 1, holder, true, map[x := clock], map[x := Version(INVALID_XID, row)])
  {}

  /** The versions after an update or delete by `x` of the version created by `cur`. */
  ghost predicate Rewrites(vs: map<Xid, Version>, vs': map<Xid, Version>, x: Xid, cur: Xid) {
    && (forall a | a in vs && a != cur && a != x :: a in vs' && vs'[a] == vs[a])
    && vs'.Keys <= vs.Keys + {x}
    && (cur != x ==> cur in vs' && vs'[cur].xmax == x)
    && (x in vs' ==> vs'[x].xmax == INVALID_XID || vs'[x].xmax == x)
  }

  /** The head belongs to the newest writer that is not aborted. */
  lemma HeadIsLast(tx: Txns, w: map<Xid, nat>, vs: map<Xid, Version>, cur: Xid, x: Xid)
    requires OrderOk(tx, w) && ChainOk(tx, w, vs) && Head(tx, vs, cur) && Open(tx, x)
    ensures forall a | a in w && Alive(tx, a) && a != cur :: Earlier(w, a, cur)
    ensures cur != x ==> x !in w
  {
    forall a | a in w && Alive(tx, a) && a != cur ensures Earlier(w, a, cur) {
      assert Earlier(w, cur, a) ==> LeadsTo(tx, w, vs, cur, a);
    }
  }

  lemma RewrittenRow(tx: Txns, clock: nat, w: map<Xid, nat>, vs: map<Xid, Version>, vs': map<Xid, Version>,
                     x: Xid, cur: Xid)
    requires LockedRow(tx, w, vs, x) && StampsOk(tx, clock, w) && Head(tx, vs, cur) && Rewrites(vs, vs', x, cur)
    ensures RowOk(tx, clock + 1, Some(x), true, NewStamps(w, x, cur, clock), vs')
  {
    HeadIsLast(tx, w, vs, cur, x);
    var w' := NewStamps(w, x, cur, clock);
    assert OrderOk(tx, w');
    RewrittenChain(tx, clock, w, vs, vs', x, cur);
  }

  lemma RewrittenChain(tx: Txns, clock: nat, w: map<Xid, nat>, vs: map<Xid, Version>, vs': map<Xid, Version>,
                       x: Xid, cur: Xid)
    requires StampsOk(tx, clock, w) && OrderOk(tx, w) && ChainOk(tx, w, vs)
    requires Open(tx, x) && Head(tx, vs, cur) && Rewrites(vs, vs', x, cur)
    ensures ChainOk(tx, NewStamps(w, x, cur, clock), vs')
  {
    HeadIsLast(tx, w, vs, cur, x);
    RewrittenLinks(tx, clock, w, vs, vs', x, cur);
    RewrittenStamps(tx, clock, w, vs, vs', x, cur);
  }

  lemma RewrittenLinks(tx: Txns, clock: nat, w: map<Xid, nat>, vs: map<Xid, Version>, vs': map<Xid, Version>,
                       x: Xid, cur: Xid)
    requires StampsOk(tx, clock, w) && OrderOk(tx, w) && ChainOk(tx, w, vs)
    requires Open(tx, x) && Head(tx, vs, cur) && Rewrites(vs, vs', x, cur)
    ensures LinksOk(tx, NewStamps(w, x, cur, clock), vs')
  {
    var w' := NewStamps(w, x, cur, clock);
    forall a, b | Earlier(w', a, b) && Alive(tx, a) && Joins(tx, w', b) ensures LeadsTo(tx, w', vs', a, b) {
      NewestIsWriter(tx, clock, w, vs, x, cur, b);
      RewrittenLink(tx, clock, w, vs, vs', x, cur, a, b);
    }
  }

  lemma RewrittenStamps(tx: Txns, clock: nat, w: map<Xid, nat>, vs: map<Xid, Version>, vs': map<Xid, Version>,
                        x: Xid, cur: Xid)
    requires StampsOk(tx, clock, w) && OrderOk(tx, w) && ChainOk(tx, w, vs)
    requires Open(tx, x) && Head(tx, vs, cur) && Rewrites(vs, vs', x, cur)
    ensures XmaxOk(tx, NewStamps(w, x, cur, clock), vs')
  {
    var w' := NewStamps(w, x, cur, clock);
    forall a, m | Supersedes(vs', a, m) && Joins(tx, w', m) ensures Alive(tx, a) && Earlier(w', a, m) {
      NewestIsWriter(tx, clock, w, vs, x, cur, m);
      RewrittenStamp(tx, clock, w, vs, vs', x, cur, a, m);
    }
  }

  lemma NewestIsWriter(tx: Txns, clock: nat, w: map<Xid, nat>, vs: map<Xid, Version>, x: Xid, cur: Xid, b: Xid)
    requires OrderOk(tx, w) && StampsOk(tx, clock, w) && Open(tx, x) && Head(tx, vs, cur) && vs.Keys <= w.Keys
    ensures Newest(NewStamps(w, x, cur, clock), b) ==> b == x
  {
    var w' := NewStamps(w, x, cur, clock);
    assert x in w' && !Earlier(w, x, b);
  }

  lemma RewrittenLink(tx: Txns, clock: nat, w: map<Xid, nat>, vs: map<Xid, Version>, vs': map<Xid, Version>,
                      x: Xid, cur: Xid, a: Xid, b: Xid)
    requires StampsOk(tx, clock, w) && OrderOk(tx, w) && ChainOk(tx, w, vs)
    requires Open(tx, x) && Head(tx, vs, cur) && Rewrites(vs, vs', x, cur)
    requires Earlier(NewStamps(w, x, cur, clock), a, b) && Alive(tx, a) && Alive(tx, b)
    ensures LeadsTo(tx, NewStamps(w, x, cur, clock), vs', a, b)
  {
    HeadIsLast(tx, w, vs, cur, x);
    assert !Earlier(w, x, b);
    if a != cur {
      assert Earlier(w, a, cur) && LeadsTo(tx, w, vs, a, cur);
      if b != x { assert Earlier(w, a, b) && LeadsTo(tx, w, vs, a, b); }
    }
  }

  lemma RewrittenStamp(tx: Txns, clock: nat, w: map<Xid, nat>, vs: map<Xid, Version>, vs': map<Xid, Version>,
                       x: Xid, cur: Xid, a: Xid, m: Xid)
    requires StampsOk(tx, clock, w) && OrderOk(tx, w) && ChainOk(tx, w, vs)
    requires Open(tx, x) && Head(tx, vs, cur) && Rewrites(vs, vs', x, cur)
    requires Supersedes(vs', a, m) && Alive(tx, m)
    ensures Alive(tx, a) && Earlier(NewStamps(w, x, cur, clock), a, m)
  {
    HeadIsLast(tx, w, vs, cur, x);
    if a != cur { assert Supersedes(vs, a, m); }
  }

  /** A reader that sees writer `x` covers every other writer that is not aborted. */
  ghost predicate CoversRest(tx: Txns, rd: Reader, w: map<Xid, nat>, x: Xid) {
    rd.Sees(x) ==> forall a | a in w && a != x && Alive(tx, a) :: Covers(tx, rd, a)
  }

  /** A write keeps the row closed for a reader exactly when the reader, if it sees the writer,
      covers every other writer of the row. */
  lemma RewrittenClosed(tx: Txns, clock: nat, w: map<Xid, nat>, vs: map<Xid, Version>, rd: Reader, rd': Reader,
                        x: Xid, cur: Xid)
    requires LockedRow(tx, w, vs, x) && StampsOk(tx, clock, w) && Head(tx, vs, cur)
    requires rd'.own == rd.own && rd'.snap == rd.snap && rd.dfloor <= rd'.dfloor
    requires ClosedOk(tx, rd, w)
    ensures ClosedOk(tx, rd', NewStamps(w, x, cur, clock)) <==> CoversRest(tx, rd', w, x)
  {
    HeadIsLast(tx, w, vs, cur, x);
    var w' := NewStamps(w, x, cur, clock);
    if ClosedOk(tx, rd', w') && rd'.Sees(x) {
      forall a | a in w && a != x && Alive(tx, a) ensures Covers(tx, rd', a) {
        assert Earlier(w', a, x);
      }
    }
    if CoversRest(tx, rd', w, x) {
      forall a, b | Earlier(w', a, b) && rd'.Sees(b) && Alive(tx, a) ensures Covers(tx, rd', a) {
        assert a in w && (b == x || Earlier(w, a, b));
        assert b != x ==> Covers(tx, rd, a);
      }
    }
  }

  lemma FloorAfterWrite(tx: Txns, wrote: map<RowId, map<Xid, nat>>, rd: Reader, x: Xid, r: RowId, rr: bool,
                        view: map<Xid, bool>)
    requires ReaderOk(tx, wrote, rd) && Agrees(view, tx.decided)
    ensures ReaderOk(tx, wrote, AfterWrite(rd, x, r, rr, view))
  {}

  /** What the guard of an update or delete establishes. */
  lemma WriteFacts(db: Db, id: nat, r: RowId, x: Xid, rr: bool, view: map<Xid, bool>, cur: Xid)
    requires Core(db) && CanWrite(db, id, r, x, rr, view, cur)
    ensures StampsOk(db.tx, db.clock, db.wrote[r]) && LockedRow(db.tx, db.wrote[r], db.rows[r], x)
    ensures CaughtUp(db.tx, db.wrote[r], view) ==> Head(db.tx, db.rows[r], cur)
  {
    LockedFacts(db, id, r, x);
    assert RowIn(db, r);
    if CaughtUp(db.tx, db.wrote[r], view) { RecheckExact(db, id, r, x, rr, view, Operate(cur)); }
  }

  lemma RewriteWritesOnly(db: Db, r: RowId, x: Xid, rr: bool, view: map<Xid, bool>, cur: Xid, vs': map<Xid, Version>)
    requires DomainsOk(db) && r in db.wrote
    ensures WritesOnly(db, Rewrite(db, x, r, rr, view, cur, vs'), r)
  {}

  lemma RewriteKeepsCore(db: Db, id: nat, r: RowId, x: Xid, rr: bool, view: map<Xid, bool>, cur: Xid, vs': map<Xid, Version>)
    requires Core(db) && CanWrite(db, id, r, x, rr, view, cur) && Rewrites(db.rows[r], vs', x, cur)
    requires Head(db.tx, db.rows[r], cur)
    ensures Core(Rewrite(db, x, r, rr, view, cur, vs'))
  {
    var db', w' := Rewrite(db, x, r, rr, view, cur, vs'), NewStamps(db.wrote[r], x, cur, db.clock);
    forall i | i in db.readers ensures ReaderOk(db.tx, db.wrote[r := w'], AfterWrite(db.readers[i], x, r, rr, view)) {
      FloorAfterWrite(db.tx, db.wrote, db.readers[i], x, r, rr, view);
      ReaderAfterWrite(db.tx, db.wrote, AfterWrite(db.readers[i], x, r, rr, view), r, w');
    }
    assert RowIn(db', r) by {
      WriteFacts(db, id, r, x, rr, view, cur);
      RewrittenRow(db.tx, db.clock, db.wrote[r], db.rows[r], vs', x, cur);
    }
    RewriteWritesOnly(db, r, x, rr, view, cur, vs');
    StepWrite(db, db', r);
  }

  /** Rewriting a version that somebody not aborted has superseded forks the chain. */
  lemma ForkedChain(tx: Txns, clock: nat, w: map<Xid, nat>, vs: map<Xid, Version>, vs': map<Xid, Version>,
                    x: Xid, cur: Xid, v: View, snap: Snapshot)
    requires LockedRow(tx, w, vs, x) && StampsOk(tx, clock, w) && (cur != x ==> cur in vs' && vs'[cur].xmax == x)
    requires v.clog == tx.clog && Agrees(v.decided, tx.decided) && VisibleIn(vs, v, snap, Some(x), cur)
    requires !Head(tx, vs, cur)
    ensures !ChainOk(tx, NewStamps(w, x, cur, clock), vs')
  {
    ResolvedStatus(tx, v, cur);
    var m, w' := vs[cur].xmax, NewStamps(w, x, cur, clock);
    assert m != x && m != cur && Supersedes(vs, cur, m);
    assert Earlier(w, cur, m);
    assert cur != x;
    assert Earlier(w', cur, m) && !LeadsTo(tx, w', vs', cur, m);
  }

  /** The core survives a write exactly when the re-check chose the head. */
  lemma StepRewrite(db: Db, id: nat, r: RowId, x: Xid, rr: bool, view: map<Xid, bool>, cur: Xid, vs': map<Xid, Version>)
    requires Core(db) && CanWrite(db, id, r, x, rr, view, cur) && (cur != x ==> cur in vs' && vs'[cur].xmax == x)
    requires Head(db.tx, db.rows[r], cur) ==> Rewrites(db.rows[r], vs', x, cur)
    ensures Core(Rewrite(db, x, r, rr, view, cur, vs')) <==> Head(db.tx, db.rows[r], cur)
  {
    var db' := Rewrite(db, x, r, rr, view, cur, vs');
    if Head(db.tx, db.rows[r], cur) {
      RewriteKeepsCore(db, id, r, x, rr, view, cur, vs');
    } else {
      WriteFacts(db, id, r, x, rr, view, cur);
      var snap := Rechecked(db.rows[r], LockView(db.tx, view), db.readers[id].snap, Current(db.tx), x, rr, cur);
      ForkedChain(db.tx, db.clock, db.wrote[r], db.rows[r], vs', x, cur, LockView(db.tx, view), snap);
      assert Core(db') ==> RowIn(db', r);
    }
  }

  /** The version the re-check operates on is visible to the snapshot it used. */
  lemma Rechecked(vs: map<Xid, Version>, v: View, snap: Snapshot, latest: Snapshot, x: Xid, rr: bool, cur: Xid)
    returns (used: Snapshot)
    requires EvalPlanQual(vs, v, snap, latest, x, rr, Operate(cur))
    ensures VisibleIn(vs, v, used, Some(x), cur)
  {
    used := if ChangedSince(vs, v, snap, x) then latest else snap;
    var f: Option<Xid> :| Finds(vs, v, used, Some(x), f) && Operate(cur) == ToRecheck(f);
  }

  /** Every reader for which the row stays in use covers its other writers once it sees `x`. */
  ghost predicate Timely(db: Db, r: RowId, x: Xid, rr: bool, view: map<Xid, bool>)
    requires r in db.wrote
  {
    forall i | i in db.readers ::
      var rd := AfterWrite(db.readers[i], x, r, rr, view);
      r !in rd.done ==> CoversRest(db.tx, rd, db.wrote[r], x)
  }

  lemma RewriteReader(tx: Txns, wrote: map<RowId, map<Xid, nat>>, clock: nat, vs: map<Xid, Version>, rd: Reader, r: RowId,
                      x: Xid, cur: Xid, rr: bool, view: map<Xid, bool>)
    requires r in wrote && LockedRow(tx, wrote[r], vs, x) && StampsOk(tx, clock, wrote[r]) && Head(tx, vs, cur)
    requires ReaderClosed(tx, wrote, rd)
    ensures var rd' := AfterWrite(rd, x, r, rr, view);
            ReaderClosed(tx, wrote[r := NewStamps(wrote[r], x, cur, clock)], rd') <==>
            (r !in rd'.done ==> CoversRest(tx, rd', wrote[r], x))
  {
    var rd', wrote' := AfterWrite(rd, x, r, rr, view), wrote[r := NewStamps(wrote[r], x, cur, clock)];
    SameReaderClosed(tx, wrote, rd, rd');
    if r !in rd'.done { RewrittenClosed(tx, clock, wrote[r], vs, rd, rd', x, cur); }
    assert forall q | q in wrote && q != r :: wrote'[q] == wrote[q];
    assert r in wrote';
  }

  /** Every snapshot stays closed under a write of the head exactly when the write is timely. */
  lemma StepTimely(db: Db, id: nat, r: RowId, x: Xid, rr: bool, view: map<Xid, bool>, cur: Xid, vs': map<Xid, Version>)
    requires Inv(db) && CanWrite(db, id, r, x, rr, view, cur) && Head(db.tx, db.rows[r], cur)
    ensures Closed(Rewrite(db, x, r, rr, view, cur, vs')) <==> Timely(db, r, x, rr, view)
  {
    WriteFacts(db, id, r, x, rr, view, cur);
    ReadersTimely(db, r, x, rr, view, cur, vs');
  }

  lemma ReadersTimely(db: Db, r: RowId, x: Xid, rr: bool, view: map<Xid, bool>, cur: Xid, vs': map<Xid, Version>)
    requires r in db.wrote && r in db.rows && LockedRow(db.tx, db.wrote[r], db.rows[r], x)
    requires StampsOk(db.tx, db.clock, db.wrote[r]) && Head(db.tx, db.rows[r], cur) && Closed(db)
    ensures Closed(Rewrite(db, x, r, rr, view, cur, vs')) <==> Timely(db, r, x, rr, view)
  {
    var db' := Rewrite(db, x, r, rr, view, cur, vs');
    forall i | i in db.readers
      ensures ReaderClosed(db'.tx, db'.wrote, db'.readers[i]) <==>
              (r !in db'.readers[i].done ==> CoversRest(db.tx, db'.readers[i], db.wrote[r], x))
    {
      RewriteReader(db.tx, db.wrote, db.clock, db.rows[r], db.readers[i], r, x, cur, rr, view);
    }
  }

  /** A registered transaction writing with a caught-up replica is always timely: nobody else sees
      it, and its own REPEATABLE READ snapshot missed nothing. */
  lemma RegisteredIsTimely(db: Db, id: nat, r: RowId, x: Xid, rr: bool, view: map<Xid, bool>, cur: Xid)
    requires Inv(db) && CanWrite(db, id, r, x, rr, view, cur)
    requires x in db.tx.running && CaughtUp(db.tx, db.wrote[r], view)
    ensures Head(db.tx, db.rows[r], cur) && Timely(db, r, x, rr, view)
  {
    WriteFacts(db, id, r, x, rr, view, cur);
    var w := db.wrote[r];
    forall i | i in db.readers && r !in AfterWrite(db.readers[i], x, r, rr, view).done
      ensures CoversRest(db.tx, AfterWrite(db.readers[i], x, r, rr, view), w, x)
    {
      var rd := db.readers[i];
      assert ReaderOk(db.tx, db.wrote, rd);
      if rd.own == Some(x) {
        NothingMissed(db, id, r, x, view, cur);
        OwnCovers(db.tx, w, db.rows[r], rd, r, x, view);
      }
    }
  }

  lemma NothingMissed(db: Db, id: nat, r: RowId, x: Xid, view: map<Xid, bool>, cur: Xid)
    requires Inv(db) && CanWrite(db, id, r, x, true, view, cur) && CaughtUp(db.tx, db.wrote[r], view)
    ensures !UnseenCommit(db.tx, db.wrote[r], db.readers[id].snap, x)
  {
    LockedFacts(db, id, r, x);
    RecheckExact(db, id, r, x, true, view, Operate(cur));
    assert ReaderClosed(db.tx, db.wrote, db.readers[id]);
    ClosedMissesChange(db.tx, db.readers[id], r, db.wrote[r], db.rows[r], x);
  }

  lemma OwnCovers(tx: Txns, w: map<Xid, nat>, vs: map<Xid, Version>, rd: Reader, r: RowId, x: Xid, view: map<Xid, bool>)
    requires LockedRow(tx, w, vs, x) && CaughtUp(tx, w, view) && rd.own == Some(x)
    requires !UnseenCommit(tx, w, rd.snap, x)
    ensures CoversRest(tx, AfterWrite(rd, x, r, true, view), w, x)
  {
    forall a | a in w && a != x && Alive(tx, a) ensures Covers(tx, AfterWrite(rd, x, r, true, view), a) {
      assert Quiet(tx, a);
    }
  }

  // ---- What a write makes visible -----------------------------------------------------------

  /** READ YOUR WRITES: after an update the head is the writer's own version with the new tuple, and
      no other version's tuple has changed. */
  lemma UpdatedVersions(tx: Txns, vs: map<Xid, Version>, x: Xid, cur: Xid, row: Tuple)
    requires cur in vs && Open(tx, x)
    ensures var vs' := Superseded(vs, x, cur, row);
            && Head(tx, vs', x) && vs'[x].row == row
            && (forall a | a in vs && a != x :: a in vs' && vs'[a].row == vs[a].row)
  {}

  /** After a delete the row has no head, and no tuple has changed. */
  lemma DeletedVersions(tx: Txns, w: map<Xid, nat>, vs: map<Xid, Version>, x: Xid, cur: Xid)
    requires OrderOk(tx, w) && ChainOk(tx, w, vs) && Head(tx, vs, cur) && Open(tx, x) && 0 < x
    ensures var vs' := vs[cur := vs[cur].(xmax := x)];
            && (forall a: Xid :: !Head(tx, vs', a))
            && (forall a | a in vs :: a in vs' && vs'[a].row == vs[a].row)
  {
    var vs' := vs[cur := vs[cur].(xmax := x)];
    forall a: Xid ensures !Head(tx, vs', a) {
      if Head(tx, vs', a) && a != cur { HeadUnique(tx, w, vs, a, cur); }
    }
  }

  /** What a step stores: an insert its tuple; an update its tuple, over its own version or beside
      the one it marks; a delete its mark. No other version and no other row changes. */
  lemma StoresExactly(db: Db, act: Action)
    requires Enabled(db, act)
    ensures act.Insert? ==> Apply(db, act).rows == db.rows[act.r := map[act.x := Version(INVALID_XID, act.row)]]
    ensures act.Update? ==>
              var vs, vs' := db.rows[act.r], Apply(db, act).rows[act.r];
              && vs'.Keys == vs.Keys + {act.x} && vs'[act.x] == Version(INVALID_XID, act.row)
              && (act.cur != act.x ==> vs'[act.cur] == Version(act.x, vs[act.cur].row))
              && forall a | a in vs && a != act.x && a != act.cur :: vs'[a] == vs[a]
    ensures act.Delete? ==>
              var vs, vs' := db.rows[act.r], Apply(db, act).rows[act.r];
              && vs'.Keys == vs.Keys && vs'[act.cur] == Version(act.x, vs[act.cur].row)
              && forall a | a in vs && a != act.cur :: vs'[a] == vs[a]
    ensures act.Update? || act.Delete? ==>
              && Apply(db, act).rows.Keys == db.rows.Keys
              && forall r | r in db.rows && r != act.r :: Apply(db, act).rows[r] == db.rows[r]
    ensures !act.Insert? && !act.Update? && !act.Delete? ==> Apply(db, act).rows == db.rows
  {}

  /** What a step does to locks and snapshots: a lock is held until its transaction releases
      everything or the leader's memory is lost; a snapshot counts as running exactly what is
      registered or not yet begun. No other step touches a lock. */
  lemma HoldsExactly(db: Db, act: Action)
    requires Enabled(db, act)
    ensures act.Lock? ==> Apply(db, act).locks == db.locks[act.r := act.x]
    ensures act.Release? ==> forall r ::
              && (r in Apply(db, act).locks <==> r in db.locks && db.locks[r] != act.x)
              && (r in Apply(db, act).locks ==> Apply(db, act).locks[r] == db.locks[r])
    ensures act.Failover? ==> Apply(db, act).locks == map[] && Apply(db, act).tx.running == {} && !Apply(db, act).serving
    ensures act.Failover? ==> Apply(db, act).tx.clog == db.tx.clog && Apply(db, act).tx.decided == db.tx.decided
    ensures act.Rejoin? ==> forall r | r in db.wrote && act.x in db.wrote[r] ::
              r in Apply(db, act).locks && Apply(db, act).locks[r] == act.x
    ensures !act.Lock? && !act.Release? && !act.Failover? && !act.Rejoin? ==> Apply(db, act).locks == db.locks
    ensures act.TakeSnapshot? ==>
              && act.id in Apply(db, act).readers && Apply(db, act).readers[act.id].own == act.own
              && forall y: Xid :: Apply(db, act).readers[act.id].snap.IsRunning(y) <==> y in db.tx.running || y >= db.tx.nextXid
    ensures act.Begin? ==>
              && Apply(db, act).tx.running == db.tx.running + {db.tx.nextXid}
              && Apply(db, act).tx.nextXid == db.tx.nextXid + 1
    ensures act.Deregister? ==> Apply(db, act).tx.running == db.tx.running - {act.x}
  {}

  /** How a transaction ends: a record makes its effects permanent exactly when it says commit; a
      marker leaves it open until its global transaction is decided, and then as decided. */
  lemma OutcomeRecorded(db: Db, x: Xid, g: Xid, commit: bool)
    ensures Enabled(db, Record(x, commit)) ==>
              var tx := Apply(db, Record(x, commit)).tx; Settled(tx, x) && (Won(tx, x) <==> commit)
    ensures Enabled(db, Prepare(x, g)) && g !in db.tx.decided ==>
              && !Settled(Apply(db, Prepare(x, g)).tx, x) && !Won(Apply(db, Prepare(x, g)).tx, x)
              && Enabled(Apply(db, Prepare(x, g)), Decide(g, commit))
              && var tx := Apply(Apply(db, Prepare(x, g)), Decide(g, commit)).tx; Settled(tx, x) && (Won(tx, x) <==> commit)
  {}

  /** NO DIRTY READ, and an abort undoes: to a reader that does not see the writer, because it runs
      or has aborted, a rewritten row looks exactly as before. */
  lemma WriteIsIsolated(tx: Txns, vs: map<Xid, Version>, vs': map<Xid, Version>, x: Xid, cur: Xid,
                        v: View, snap: Snapshot, own: Option<Xid>, a: Xid)
    requires Head(tx, vs, cur) && Rewrites(vs, vs', x, cur) && (cur != x ==> x !in vs)
    requires v.clog == tx.clog && Agrees(v.decided, tx.decided) && (own.Some? ==> Alive(tx, own.value))
    requires !CommittedVisible(v, snap, own, x)
    ensures VisibleIn(vs', v, snap, own, a) <==> VisibleIn(vs, v, snap, own, a)
  {
    ResolvedStatus(tx, v, vs[cur].xmax);
  }

  // ---- Whole runs -----------------------------------------------------------------------

  lemma UpdateRewrites(vs: map<Xid, Version>, x: Xid, cur: Xid, row: Tuple)
    requires cur in vs
    ensures Rewrites(vs, Superseded(vs, x, cur, row), x, cur)
  {}

  lemma DeleteRewrites(tx: Txns, w: map<Xid, nat>, vs: map<Xid, Version>, x: Xid, cur: Xid)
    requires OrderOk(tx, w) && ChainOk(tx, w, vs) && Head(tx, vs, cur) && Open(tx, x)
    ensures Rewrites(vs, vs[cur := vs[cur].(xmax := x)], x, cur)
  {
    HeadIsLast(tx, w, vs, cur, x);
  }

  lemma StepUpdate(db: Db, id: nat, r: RowId, x: Xid, rr: bool, view: map<Xid, bool>, cur: Xid, row: Tuple)
    requires Core(db) && CanWrite(db, id, r, x, rr, view, cur)
    ensures var db' := Rewrite(db, x, r, rr, view, cur, Superseded(db.rows[r], x, cur, row));
            && (Core(db') <==> Head(db.tx, db.rows[r], cur))
            && (Closed(db) && Core(db') ==> (Closed(db') <==> Timely(db, r, x, rr, view)))
  {
    var vs' := Superseded(db.rows[r], x, cur, row);
    UpdateRewrites(db.rows[r], x, cur, row);
    StepRewrite(db, id, r, x, rr, view, cur, vs');
    if Closed(db) && Head(db.tx, db.rows[r], cur) { StepTimely(db, id, r, x, rr, view, cur, vs'); }
  }

  lemma DeleteOfHead(db: Db, id: nat, r: RowId, x: Xid, rr: bool, view: map<Xid, bool>, cur: Xid)
    requires Core(db) && CanWrite(db, id, r, x, rr, view, cur) && Head(db.tx, db.rows[r], cur)
    ensures Rewrites(db.rows[r], db.rows[r][cur := db.rows[r][cur].(xmax := x)], x, cur)
  {
    WriteFacts(db, id, r, x, rr, view, cur);
    DeleteRewrites(db.tx, db.wrote[r], db.rows[r], x, cur);
  }

  lemma StepDelete(db: Db, id: nat, r: RowId, x: Xid, rr: bool, view: map<Xid, bool>, cur: Xid)
    requires Core(db) && CanWrite(db, id, r, x, rr, view, cur)
    ensures var db' := Rewrite(db, x, r, rr, view, cur, db.rows[r][cur := db.rows[r][cur].(xmax := x)]);
            && (Core(db') <==> Head(db.tx, db.rows[r], cur))
            && (Closed(db) && Core(db') ==> (Closed(db') <==> Timely(db, r, x, rr, view)))
  {
    var vs' := db.rows[r][cur := db.rows[r][cur].(xmax := x)];
    if Head(db.tx, db.rows[r], cur) { DeleteOfHead(db, id, r, x, rr, view, cur); }
    StepRewrite(db, id, r, x, rr, view, cur, vs');
    if Closed(db) && Head(db.tx, db.rows[r], cur) { StepTimely(db, id, r, x, rr, view, cur, vs'); }
  }

  ghost predicate OnRegistry(act: Action) {
    act.Begin? || act.BeginGlobal? || act.Record? || act.Prepare? || act.Deregister? || act.Decide?
  }

  lemma RegistryEvolves(db: Db, act: Action)
    requires TxnsOk(db.tx) && Enabled(db, act) && OnRegistry(act)
    ensures Apply(db, act) == db.(tx := Apply(db, act).tx)
    ensures Evolves(db.tx, Apply(db, act).tx) && TxnsOk(Apply(db, act).tx)
  {
    match act
    case Begin => BeginEvolves(db.tx);
    case BeginGlobal =>
    case Record(x, commit) => RecordEvolves(db.tx, x, if commit then Committed else Aborted);
    case Prepare(x, g) => RecordEvolves(db.tx, x, Prepared(g));
    case Deregister(x) => DeregisterEvolves(db.tx, {x});
    case Decide(g, commit) => DecideEvolves(db.tx, g, commit);
  }

  /** A write builds on the head; a transaction returns before anybody overwrote it; a gate opens over
      guarded rows. */
  ghost predicate InOrder(db: Db, act: Action)
    requires Enabled(db, act)
  {
    match act
    case Update(id, r, x, rr, view, cur, row) => Head(db.tx, db.rows[r], cur)
    case Delete(id, r, x, rr, view, cur) => Head(db.tx, db.rows[r], cur)
    case Rejoin(x) => Unfollowed(db, x)
    case OpenGate => AllGuarded(db)
    case _ => true
  }

  /** And no reader sees the writer while missing another writer of the row. */
  ghost predicate InTime(db: Db, act: Action)
    requires Enabled(db, act)
  {
    match act
    case Update(id, r, x, rr, view, cur, row) => Timely(db, r, x, rr, view)
    case Delete(id, r, x, rr, view, cur) => Timely(db, r, x, rr, view)
    case _ => true
  }

  ghost predicate Sound(db: Db, strict: bool) { Core(db) && (strict ==> Closed(db)) }

  ghost predicate Fine(db: Db, act: Action, strict: bool)
    requires Enabled(db, act)
  {
    InOrder(db, act) && (strict ==> InTime(db, act))
  }

  lemma StepElse(db: Db, act: Action)
    requires Core(db) && Enabled(db, act) && !OnRegistry(act) && !act.Update? && !act.Delete? && !act.Rejoin? && !act.OpenGate?
    ensures Keeps(db, Apply(db, act))
  {
    match act
    case TakeSnapshot(id, own) => StepSnapshot(db, id, own);
    case Scan(id, r, gx, view, a) => StepScan(db, id, r, gx, view, a);
    case Lock(id, r, x) => StepLock(db, id, r, x);
    case Insert(x, r, row) => StepInsert(db, x, r, row);
    case Release(x) => StepRelease(db, x);
    case Failover => StepFailover(db);
  }

  lemma UpdateIff(db: Db, act: Action, strict: bool)
    requires Sound(db, strict) && Enabled(db, act) && act.Update?
    ensures Sound(Apply(db, act), strict) <==> Fine(db, act, strict)
  {
    StepUpdate(db, act.id, act.r, act.x, act.rr, act.view, act.cur, act.row);
  }

  lemma DeleteIff(db: Db, act: Action, strict: bool)
    requires Sound(db, strict) && Enabled(db, act) && act.Delete?
    ensures Sound(Apply(db, act), strict) <==> Fine(db, act, strict)
  {
    StepDelete(db, act.id, act.r, act.x, act.rr, act.view, act.cur);
  }

  lemma RejoinIff(db: Db, act: Action, strict: bool)
    requires Sound(db, strict) && Enabled(db, act) && act.Rejoin?
    ensures Sound(Apply(db, act), strict) <==> Fine(db, act, strict)
  {
    StepRejoin(db, act.x);
  }

  lemma GateIff(db: Db, act: Action, strict: bool)
    requires Sound(db, strict) && Enabled(db, act) && act.OpenGate?
    ensures Sound(Apply(db, act), strict) <==> Fine(db, act, strict)
  {
    StepOpenGate(db);
  }

  lemma ElseIff(db: Db, act: Action, strict: bool)
    requires Sound(db, strict) && Enabled(db, act) && !act.Update? && !act.Delete? && !act.Rejoin? && !act.OpenGate?
    ensures Sound(Apply(db, act), strict) && Fine(db, act, strict)
  {
    if OnRegistry(act) {
      RegistryEvolves(db, act);
      StepTxns(db, Apply(db, act).tx);
    } else {
      StepElse(db, act);
    }
  }

  /** Every step keeps the invariant, or its core alone, exactly when its condition is met. */
  lemma StepIff(db: Db, act: Action, strict: bool)
    requires Sound(db, strict) && Enabled(db, act)
    ensures Sound(Apply(db, act), strict) <==> Fine(db, act, strict)
  {
    if act.Update? {
      UpdateIff(db, act, strict);
    } else if act.Delete? {
      DeleteIff(db, act, strict);
    } else if act.Rejoin? {
      RejoinIff(db, act, strict);
    } else if act.OpenGate? {
      GateIff(db, act, strict);
    } else {
      ElseIff(db, act, strict);
    }
  }

  /** The invariant, or its core alone, holds in every state of the run. */
  ghost predicate Throughout(db: Db, acts: seq<Action>, strict: bool)
    requires Legal(db, acts)
    decreases |acts|
  {
    Sound(db, strict) && (acts != [] ==> Throughout(Apply(db, acts[0]), acts[1..], strict))
  }

  /** Every step of the run meets its condition. */
  ghost predicate AllFine(db: Db, acts: seq<Action>, strict: bool)
    requires Legal(db, acts)
    decreases |acts|
  {
    acts != [] ==> Fine(db, acts[0], strict) && AllFine(Apply(db, acts[0]), acts[1..], strict)
  }

  /** Of all legal runs, exactly those whose every step meets its condition keep the invariant
      throughout, and likewise its core. */
  lemma {:induction false} RunIff(db: Db, acts: seq<Action>, strict: bool)
    requires Sound(db, strict) && Legal(db, acts)
    ensures Throughout(db, acts, strict) <==> AllFine(db, acts, strict)
    ensures AllFine(db, acts, strict) ==> Sound(Run(db, acts), strict)
    decreases |acts|
  {
    if acts != [] {
      StepIff(db, acts[0], strict);
      if Fine(db, acts[0], strict) { RunIff(Apply(db, acts[0]), acts[1..], strict); }
    }
  }

  /** What each step of a run can check before it is made: a write reads a replica that has the
      decisions on its row, a transaction returns to rows nobody has written since, a gate opens over
      guarded rows; and when `strict` the writer is still registered, or its write timely. */
  ghost predicate Prompt(db: Db, act: Action, strict: bool)
    requires Enabled(db, act)
  {
    match act
    case Update(id, r, x, rr, view, cur, row) =>
      CaughtUp(db.tx, db.wrote[r], view) && (strict ==> x in db.tx.running || Timely(db, r, x, rr, view))
    case Delete(id, r, x, rr, view, cur) =>
      CaughtUp(db.tx, db.wrote[r], view) && (strict ==> x in db.tx.running || Timely(db, r, x, rr, view))
    case Rejoin(x) => Unfollowed(db, x)
    case OpenGate => AllGuarded(db)
    case _ => true
  }

  lemma PromptWrite(db: Db, id: nat, r: RowId, x: Xid, rr: bool, view: map<Xid, bool>, cur: Xid, strict: bool)
    requires Sound(db, strict) && CanWrite(db, id, r, x, rr, view, cur) && CaughtUp(db.tx, db.wrote[r], view)
    requires strict ==> x in db.tx.running || Timely(db, r, x, rr, view)
    ensures Head(db.tx, db.rows[r], cur) && (strict ==> Timely(db, r, x, rr, view))
  {
    WriteFacts(db, id, r, x, rr, view, cur);
    if strict && x in db.tx.running { RegisteredIsTimely(db, id, r, x, rr, view, cur); }
  }

  lemma PromptIsFine(db: Db, act: Action, strict: bool)
    requires Sound(db, strict) && Enabled(db, act) && Prompt(db, act, strict)
    ensures Fine(db, act, strict)
  {
    match act
    case Update(id, r, x, rr, view, cur, row) => PromptWrite(db, id, r, x, rr, view, cur, strict);
    case Delete(id, r, x, rr, view, cur) => PromptWrite(db, id, r, x, rr, view, cur, strict);
    case _ =>
  }

  ghost predicate AllPrompt(db: Db, acts: seq<Action>, strict: bool)
    requires Legal(db, acts)
    decreases |acts|
  {
    acts != [] ==> Prompt(db, acts[0], strict) && AllPrompt(Apply(db, acts[0]), acts[1..], strict)
  }

  /** Runs whose every step checks meet every condition: each write, in turn, finds the head. */
  lemma {:induction false} PromptRun(db: Db, acts: seq<Action>, strict: bool)
    requires Sound(db, strict) && Legal(db, acts) && AllPrompt(db, acts, strict)
    ensures AllFine(db, acts, strict)
    decreases |acts|
  {
    if acts != [] {
      PromptIsFine(db, acts[0], strict);
      StepIff(db, acts[0], strict);
      PromptRun(Apply(db, acts[0]), acts[1..], strict);
    }
  }

  /** AT MOST ONE LIVE VERSION, over every run whose writes and returns are in order and in time:
      no interleaving of single-range and distributed transactions, failovers, recoveries and
      surviving sessions lets a snapshot see two versions of a row. */
  lemma AtMostOneLive(acts: seq<Action>, id: nat, r: RowId, gx: Xid, view: map<Xid, bool>, a: Xid, b: Xid)
    requires Legal(INIT, acts) && AllFine(INIT, acts, true)
    requires var db := Run(INIT, acts);
             && id in db.readers && r !in db.readers[id].done
             && (db.readers[id].own.Some? ==> Alive(db.tx, db.readers[id].own.value))
             && CanScan(db, id, r, gx, view, a) && CanScan(db, id, r, gx, view, b)
    ensures a == b
  {
    RunIff(INIT, acts, true);
    AtMostOneVisible(Run(INIT, acts), id, r, gx, view, a, b);
  }

  /** NO LOST UPDATE, over every run whose writes and returns are in order, however late a marked
      participant writes: see `RecheckExact`. */
  lemma NoLostUpdate(acts: seq<Action>, id: nat, r: RowId, x: Xid, rr: bool, view: map<Xid, bool>, out: Recheck)
    requires Legal(INIT, acts) && AllFine(INIT, acts, false)
    requires var db := Run(INIT, acts);
             && Locked(db, id, r, x) && ReplicaFor(db.tx, db.readers[id], view) && CaughtUp(db.tx, db.wrote[r], view)
             && EvalPlanQual(db.rows[r], LockView(db.tx, view), db.readers[id].snap, Current(db.tx), x, rr, out)
    ensures var db := Run(INIT, acts);
            && RecheckRight(db.tx, db.readers[id], db.wrote[r], db.rows[r], x, rr, out)
            && (rr && out.Operate? ==>
                  VisibleIn(db.rows[r], LockView(db.tx, view), db.readers[id].snap, Some(x), out.xmin))
            && (forall a: Xid, b: Xid :: Head(db.tx, db.rows[r], a) && Head(db.tx, db.rows[r], b) ==> a == b)
  {
    RunIff(INIT, acts, false);
    var db := Run(INIT, acts);
    RecheckExact(db, id, r, x, rr, view, out);
    forall a: Xid, b: Xid | Head(db.tx, db.rows[r], a) && Head(db.tx, db.rows[r], b) ensures a == b {
      LockedFacts(db, id, r, x);
      HeadUnique(db.tx, db.wrote[r], db.rows[r], a, b);
    }
  }

  /** AT MOST ONE LIVE VERSION, from what each step can check. */
  lemma AtMostOneLiveChecked(acts: seq<Action>, id: nat, r: RowId, gx: Xid, view: map<Xid, bool>, a: Xid, b: Xid)
    requires Legal(INIT, acts) && AllPrompt(INIT, acts, true)
    requires var db := Run(INIT, acts);
             && id in db.readers && r !in db.readers[id].done
             && (db.readers[id].own.Some? ==> Alive(db.tx, db.readers[id].own.value))
             && CanScan(db, id, r, gx, view, a) && CanScan(db, id, r, gx, view, b)
    ensures a == b
  {
    PromptRun(INIT, acts, true);
    AtMostOneLive(acts, id, r, gx, view, a, b);
  }

  /** NO LOST UPDATE, from what each step can check: with caught-up replicas, unfollowed returns and
      guarded gates every update and delete of the run rewrites the head. */
  lemma NoLostUpdateChecked(acts: seq<Action>, id: nat, r: RowId, x: Xid, rr: bool, view: map<Xid, bool>, out: Recheck)
    requires Legal(INIT, acts) && AllPrompt(INIT, acts, false)
    requires var db := Run(INIT, acts);
             && Locked(db, id, r, x) && ReplicaFor(db.tx, db.readers[id], view) && CaughtUp(db.tx, db.wrote[r], view)
             && EvalPlanQual(db.rows[r], LockView(db.tx, view), db.readers[id].snap, Current(db.tx), x, rr, out)
    ensures var db := Run(INIT, acts); RecheckRight(db.tx, db.readers[id], db.wrote[r], db.rows[r], x, rr, out)
  {
    PromptRun(INIT, acts, false);
    NoLostUpdate(acts, id, r, x, rr, view, out);
  }
}
