/** The re-check under the row lock with a replica of range 0's decisions that may lag: exactly
    when its answer is still the right one. */
module MvccReplica {
  import opened Base
  import opened Visibility
  import opened Mvcc
  import opened MvccRuns

  /** The replica reports the version's creator but not the transaction that superseded it. */
  predicate Misled(tx: Txns, vs: map<Xid, Version>, view: map<Xid, bool>, x: Xid, a: Xid) {
    && a in vs && vs[a].xmax != INVALID_XID && Shown(tx, view, x, a)
    && Alive(tx, vs[a].xmax) && !Shown(tx, view, x, vs[a].xmax)
  }

  /** The replica reports the head's creator, and whatever superseded version it takes for live
      belongs to a smaller xid than the head. */
  ghost predicate Suffices(tx: Txns, vs: map<Xid, Version>, view: map<Xid, bool>, x: Xid) {
    && (forall h: Xid | Head(tx, vs, h) :: Shown(tx, view, x, h))
    && (forall a: Xid | Misled(tx, vs, view, x, a) :: exists h: Xid :: Head(tx, vs, h) && a < h)
  }

  /** REPEATABLE READ, facing a change its snapshot misses, needs the decision of one such change;
      otherwise the replica must suffice to find the head. */
  ghost predicate ReplicaOk(tx: Txns, rd: Reader, w: map<Xid, nat>, vs: map<Xid, Version>, x: Xid, rr: bool,
                            view: map<Xid, bool>)
  {
    if rr && UnseenChange(tx, w, rd.snap, x)
    then exists a, m :: Changes(tx, w, rd.snap, x, a, m) && Applied(tx, view, m)
    else Suffices(tx, vs, view, x)
  }

  /** What the current snapshot takes for live: the head if reported, and the misleading versions. */
  lemma LatestSees(tx: Txns, w: map<Xid, nat>, vs: map<Xid, Version>, x: Xid, view: map<Xid, bool>, a: Xid)
    requires LockedRow(tx, w, vs, x) && Agrees(view, tx.decided) && a in vs
    ensures VisibleIn(vs, LockView(tx, view), Current(tx), Some(x), a) <==>
            (Head(tx, vs, a) && Shown(tx, view, x, a)) || Misled(tx, vs, view, x, a)
  {
    LatestShows(tx, w, vs, x, view, a);
    if vs[a].xmax != INVALID_XID { LatestShows(tx, w, vs, x, view, vs[a].xmax); }
  }

  /** A snapshot the row is closed for misses no reported writer, unless a change is noticed. */
  lemma MissesNone(tx: Txns, rd: Reader, r: RowId, w: map<Xid, nat>, vs: map<Xid, Version>, x: Xid,
                   view: map<Xid, bool>, m: Xid)
    requires LockedRow(tx, w, vs, x) && ScannedRow(tx, w, rd, r, x) && ClosedOk(tx, rd, w)
    requires forall a, c | Changes(tx, w, rd.snap, x, a, c) :: !Applied(tx, view, c)
    requires m in w && m != x && Shown(tx, view, x, m)
    ensures !rd.snap.IsRunning(m)
  {
    var s := rd.seen[r];
    assert !Changes(tx, w, rd.snap, x, s, m);
    assert Earlier(w, m, s) ==> Covers(tx, rd, m);
  }

  lemma SnapshotSees(tx: Txns, rd: Reader, r: RowId, w: map<Xid, nat>, vs: map<Xid, Version>, x: Xid,
                     view: map<Xid, bool>, a: Xid)
    requires LockedRow(tx, w, vs, x) && ScannedRow(tx, w, rd, r, x) && ClosedOk(tx, rd, w)
    requires forall b, c | Changes(tx, w, rd.snap, x, b, c) :: !Applied(tx, view, c)
    requires Agrees(view, tx.decided) && a in w
    ensures CommittedVisible(LockView(tx, view), rd.snap, Some(x), a) <==>
            CommittedVisible(LockView(tx, view), Current(tx), Some(x), a)
  {
    LatestShows(tx, w, vs, x, view, a);
    SnapshotShows(tx, w, vs, x, view, rd.snap, a);
    if a != x && Shown(tx, view, x, a) { MissesNone(tx, rd, r, w, vs, x, view, a); }
  }

  /** Whichever snapshot the re-check uses, the greatest live version is the head exactly when the
      replica suffices. */
  lemma FindIff(tx: Txns, w: map<Xid, nat>, vs: map<Xid, Version>, x: Xid, view: map<Xid, bool>, snap: Snapshot,
                f: Option<Xid>)
    requires LockedRow(tx, w, vs, x) && Agrees(view, tx.decided)
    requires Finds(vs, LockView(tx, view), snap, Some(x), f)
    requires forall a | a in vs :: VisibleIn(vs, LockView(tx, view), snap, Some(x), a) <==>
                                   VisibleIn(vs, LockView(tx, view), Current(tx), Some(x), a)
    ensures OperatesOnHead(tx, vs, ToRecheck(f)) <==> Suffices(tx, vs, view, x)
  {
    forall a | a in vs
      ensures VisibleIn(vs, LockView(tx, view), snap, Some(x), a) <==>
              (Head(tx, vs, a) && Shown(tx, view, x, a)) || Misled(tx, vs, view, x, a)
    {
      LatestSees(tx, w, vs, x, view, a);
    }
    if Suffices(tx, vs, view, x) { SufficientFind(tx, w, vs, x, view, LockView(tx, view), snap, f); }
    if OperatesOnHead(tx, vs, ToRecheck(f)) {
      forall a: Xid | Misled(tx, vs, view, x, a) ensures exists h: Xid :: Head(tx, vs, h) && a < h {
        assert Head(tx, vs, f.value) && a != f.value;
      }
    }
  }

  lemma SufficientFind(tx: Txns, w: map<Xid, nat>, vs: map<Xid, Version>, x: Xid, view: map<Xid, bool>, v: View,
                       snap: Snapshot, f: Option<Xid>)
    requires OrderOk(tx, w) && ChainOk(tx, w, vs) && Suffices(tx, vs, view, x) && Finds(vs, v, snap, Some(x), f)
    requires forall a | a in vs :: VisibleIn(vs, v, snap, Some(x), a) <==>
               (Head(tx, vs, a) && Shown(tx, view, x, a)) || Misled(tx, vs, view, x, a)
    ensures OperatesOnHead(tx, vs, ToRecheck(f))
  {
    if f.Some? {
      assert Head(tx, vs, f.value);
      forall a: Xid | Head(tx, vs, a) ensures a == f.value { HeadUnique(tx, w, vs, a, f.value); }
    }
  }

  /** Unless it fails, the re-check operates on the head exactly when the replica suffices. */
  lemma OperateIff(tx: Txns, rd: Reader, r: RowId, w: map<Xid, nat>, vs: map<Xid, Version>, x: Xid, rr: bool,
                   view: map<Xid, bool>, out: Recheck)
    requires LockedRow(tx, w, vs, x) && ScannedRow(tx, w, rd, r, x) && ClosedOk(tx, rd, w) && Agrees(view, tx.decided)
    requires EvalPlanQual(vs, LockView(tx, view), rd.snap, Current(tx), x, rr, out) && out != SerializationFailure
    ensures OperatesOnHead(tx, vs, out) <==> Suffices(tx, vs, view, x)
  {
    var v := LockView(tx, view);
    ChangedIffApplied(tx, rd, r, w, vs, x, view);
    var changed := ChangedSince(vs, v, rd.snap, x);
    var s := if changed then Current(tx) else rd.snap;
    var f: Option<Xid> :| Finds(vs, v, s, Some(x), f) && out == ToRecheck(f);
    if !changed {
      forall a | a in vs
        ensures VisibleIn(vs, v, s, Some(x), a) <==> VisibleIn(vs, v, Current(tx), Some(x), a)
      {
        SnapshotSees(tx, rd, r, w, vs, x, view, a);
        if vs[a].xmax != INVALID_XID { SnapshotSees(tx, rd, r, w, vs, x, view, vs[a].xmax); }
      }
    }
    FindIff(tx, w, vs, x, view, s, f);
  }

  /** THE RE-CHECK UNDER ANY REPLICA: its answer is the right one exactly when the replica has the
      decisions that matter. */
  lemma RecheckIff(tx: Txns, rd: Reader, r: RowId, w: map<Xid, nat>, vs: map<Xid, Version>, x: Xid, rr: bool,
                   view: map<Xid, bool>, out: Recheck)
    requires LockedRow(tx, w, vs, x) && ScannedRow(tx, w, rd, r, x) && ClosedOk(tx, rd, w) && Agrees(view, tx.decided)
    requires EvalPlanQual(vs, LockView(tx, view), rd.snap, Current(tx), x, rr, out)
    ensures RecheckRight(tx, rd, w, vs, x, rr, out) <==> ReplicaOk(tx, rd, w, vs, x, rr, view)
  {
    ChangedIffApplied(tx, rd, r, w, vs, x, view);
    if ChangedSince(vs, LockView(tx, view), rd.snap, x) {
      var a, m :| Changes(tx, w, rd.snap, x, a, m) && Applied(tx, view, m);
    }
    if out != SerializationFailure { OperateIff(tx, rd, r, w, vs, x, rr, view, out); }
  }

  /** The same in any state of a run that keeps the invariant. */
  lemma RecheckAnyReplica(db: Db, id: nat, r: RowId, x: Xid, rr: bool, view: map<Xid, bool>, out: Recheck)
    requires Inv(db) && Locked(db, id, r, x) && ReplicaFor(db.tx, db.readers[id], view)
    requires EvalPlanQual(db.rows[r], LockView(db.tx, view), db.readers[id].snap, Current(db.tx), x, rr, out)
    ensures RecheckRight(db.tx, db.readers[id], db.wrote[r], db.rows[r], x, rr, out) <==>
            ReplicaOk(db.tx, db.readers[id], db.wrote[r], db.rows[r], x, rr, view)
  {
    LockedFacts(db, id, r, x);
    assert ReaderClosed(db.tx, db.wrote, db.readers[id]);
    RecheckIff(db.tx, db.readers[id], r, db.wrote[r], db.rows[r], x, rr, view, out);
  }

  lemma OperatesIsHead(tx: Txns, w: map<Xid, nat>, vs: map<Xid, Version>, cur: Xid)
    requires OrderOk(tx, w) && ChainOk(tx, w, vs)
    ensures OperatesOnHead(tx, vs, Operate(cur)) <==> Head(tx, vs, cur)
  {
    forall a: Xid | Head(tx, vs, a) && Head(tx, vs, cur) ensures a == cur { HeadUnique(tx, w, vs, a, cur); }
  }

  /** An update or delete rewrites the head exactly when the replica its re-check read suffices. */
  lemma WriteOnHeadIff(db: Db, id: nat, r: RowId, x: Xid, rr: bool, view: map<Xid, bool>, cur: Xid)
    requires Inv(db) && CanWrite(db, id, r, x, rr, view, cur)
    ensures Head(db.tx, db.rows[r], cur) <==> Suffices(db.tx, db.rows[r], view, x)
  {
    LockedFacts(db, id, r, x);
    assert ReaderClosed(db.tx, db.wrote, db.readers[id]);
    OperateIff(db.tx, db.readers[id], r, db.wrote[r], db.rows[r], x, rr, view, Operate(cur));
    OperatesIsHead(db.tx, db.wrote[r], db.rows[r], cur);
  }

  // ---- Runs -----------------------------------------------------------------------------------

  /** The step's condition from what it can check: a write reads a replica that suffices, in time. */
  ghost predicate Suited(db: Db, act: Action)
    requires Enabled(db, act)
  {
    match act
    case Update(id, r, x, rr, view, cur, row) => Suffices(db.tx, db.rows[r], view, x) && Timely(db, r, x, rr, view)
    case Delete(id, r, x, rr, view, cur) => Suffices(db.tx, db.rows[r], view, x) && Timely(db, r, x, rr, view)
    case Rejoin(x) => Unfollowed(db, x)
    case OpenGate => AllGuarded(db)
    case _ => true
  }

  lemma SuitedUpdate(db: Db, act: Action)
    requires Inv(db) && Enabled(db, act) && act.Update?
    ensures Suited(db, act) <==> Fine(db, act, true)
  {
    WriteOnHeadIff(db, act.id, act.r, act.x, act.rr, act.view, act.cur);
  }

  lemma SuitedDelete(db: Db, act: Action)
    requires Inv(db) && Enabled(db, act) && act.Delete?
    ensures Suited(db, act) <==> Fine(db, act, true)
  {
    WriteOnHeadIff(db, act.id, act.r, act.x, act.rr, act.view, act.cur);
  }

  lemma SuitedElse(db: Db, act: Action)
    requires Enabled(db, act) && !act.Update? && !act.Delete?
    ensures Suited(db, act) <==> Fine(db, act, true)
  {}

  lemma SuitedIff(db: Db, act: Action)
    requires Inv(db) && Enabled(db, act)
    ensures Suited(db, act) <==> Fine(db, act, true)
  {
    if act.Update? {
      SuitedUpdate(db, act);
    } else if act.Delete? {
      SuitedDelete(db, act);
    } else {
      SuitedElse(db, act);
    }
  }

  ghost predicate AllSuited(db: Db, acts: seq<Action>)
    requires Legal(db, acts)
    decreases |acts|
  {
    acts != [] ==> Suited(db, acts[0]) && AllSuited(Apply(db, acts[0]), acts[1..])
  }

  /** A run keeps the invariant throughout exactly when every write reads a replica that suffices and
      comes in time, every return is to rows nobody has written since, and every gate opens over
      guarded rows. */
  lemma {:induction false} SuitedRun(db: Db, acts: seq<Action>)
    requires Inv(db) && Legal(db, acts)
    ensures AllSuited(db, acts) <==> Throughout(db, acts, true)
    decreases |acts|
  {
    if acts != [] {
      SuitedIff(db, acts[0]);
      StepIff(db, acts[0], true);
      if Suited(db, acts[0]) {
        SuitedRun(Apply(db, acts[0]), acts[1..]);
      } else {
        NotThroughout(Apply(db, acts[0]), acts[1..]);
      }
    }
  }

  lemma NotThroughout(db: Db, acts: seq<Action>)
    requires Legal(db, acts) && !Sound(db, true)
    ensures !Throughout(db, acts, true)
  {}
}
