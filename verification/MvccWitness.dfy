/** Runs of the state machine from its initial state that end in a step whose condition fails: what
    each of those steps breaks. */
module MvccWitness {
  import opened Base
  import opened Visibility
  import opened Mvcc
  import opened MvccRuns
  import opened MvccLimits

  /** The actions lead from `db` to `db'`, with every step's condition met when `fine`. */
  ghost predicate Path(db: Db, acts: seq<Action>, db': Db, fine: bool)
    decreases |acts|
  {
    if acts == [] then db == db'
    else Enabled(db, acts[0]) && (fine ==> Fine(db, acts[0], true)) && Path(Apply(db, acts[0]), acts[1..], db', fine)
  }

  ghost predicate Reached(db: Db, fine: bool) { exists acts :: Path(INIT, acts, db, fine) }

  /** What is reached is reached by a legal run. */
  lemma {:induction false} PathIsRun(db: Db, acts: seq<Action>, db': Db, fine: bool)
    requires Path(db, acts, db', fine)
    ensures Legal(db, acts) && Run(db, acts) == db' && (fine ==> AllFine(db, acts, true))
    decreases |acts|
  {
    if acts != [] { PathIsRun(Apply(db, acts[0]), acts[1..], db', fine); }
  }

  lemma {:induction false} PathExtends(db: Db, acts: seq<Action>, db': Db, act: Action, fine: bool)
    requires Path(db, acts, db', fine) && Enabled(db', act) && (fine ==> Fine(db', act, true))
    ensures Path(db, acts + [act], Apply(db', act), fine)
    decreases |acts|
  {
    if acts == [] {
      assert [act][1..] == [];
    } else {
      assert (acts + [act])[1..] == acts[1..] + [act];
      PathExtends(Apply(db, acts[0]), acts[1..], db', act, fine);
    }
  }

  lemma Extend(db: Db, act: Action, fine: bool) returns (db': Db)
    requires Reached(db, fine) && Enabled(db, act) && (fine ==> Fine(db, act, true))
    ensures db' == Apply(db, act) && Reached(db', fine)
  {
    var acts :| Path(INIT, acts, db, fine);
    PathExtends(INIT, acts, db, act, fine);
    db' := Apply(db, act);
  }

  lemma Start()
    ensures Reached(INIT, true)
  {
    var none: seq<Action> := [];
    assert Path(INIT, none, INIT, true);
  }

  lemma ReachedInv(db: Db)
    requires Reached(db, true)
    ensures Inv(db)
  {
    var acts :| Path(INIT, acts, db, true);
    PathIsRun(INIT, acts, db, true);
    RunIff(INIT, acts, true);
  }

  /** Row 7, inserted and committed by transaction 1; global transaction 1 has begun. */
  const BASE := Db(Txns(map[1 := Committed], map[], {}, 2, 2), map[7 := map[1 := Version(INVALID_XID, [10])]],
                   map[7 := map[1 := 0]], 1, map[], true, map[])

  lemma ReachBase()
    ensures Reached(BASE, true)
  {
    Start();
    var s := Extend(INIT, OpenGate, true);
    s := Extend(s, BeginGlobal, true);
    s := Extend(s, Begin, true);
    s := Extend(s, Insert(1, 7, [10]), true);
    s := Extend(s, Record(1, true), true);
    s := Extend(s, Deregister(1), true);
    assert s.tx.running == {};
  }

  /** A row with one version, created by `a`. */
  function Only(a: Xid, row: Tuple): map<Xid, Version> { map[a := Version(INVALID_XID, row)] }

  const ONE := Only(1, [10])

  /** The re-check of the row's only version. */
  lemma FirstRecheck(tx: Txns, snap: Snapshot, x: Xid, a: Xid, row: Tuple)
    requires ClogGet(tx.clog, a) == Committed && !snap.IsRunning(a)
    ensures EvalPlanQual(Only(a, row), LockView(tx, map[]), snap, Current(tx), x, false, Operate(a))
  {
    var v, vs := LockView(tx, map[]), Only(a, row);
    assert !ChangedSince(vs, v, snap, x);
    assert Finds(vs, v, snap, Some(x), Some(a)) && ToRecheck(Some(a)) == Operate(a);
  }

  /** After a READ COMMITTED write the row is done for the statement. */
  lemma DoneAfter(rd: Reader, x: Xid)
    requires rd.dfloor == {} && rd.done == {}
    ensures AfterWrite(rd, x, 7, false, map[]) == if rd.own == Some(x) then rd.(done := {7}) else rd
  {
    var view: map<Xid, bool> := map[];
    assert {} + view.Keys == {} && {} + {7} == {7};
  }

  /** A registered transaction updates the row's only version. */
  lemma FirstUpdate(db: Db, id: nat, x: Xid, row: Tuple, a: Xid, was: Tuple) returns (db': Db)
    requires Reached(db, true) && Locked(db, id, 7, x) && db.rows[7] == Only(a, was) && db.wrote[7] == map[a := 0]
    requires x in db.tx.running && db.readers[id].dfloor == {} && ClogGet(db.tx.clog, a) == Committed
    requires !db.readers[id].snap.IsRunning(a)
    ensures db' == Rewrite(db, x, 7, false, map[], a, Superseded(Only(a, was), x, a, row)) && Reached(db', true)
  {
    FirstRecheck(db.tx, db.readers[id].snap, x, a, was);
    assert CanWrite(db, id, 7, x, false, map[], a);
    ReachedInv(db);
    RegisteredIsTimely(db, id, 7, x, false, map[], a);
    db' := Extend(db, Update(id, 7, x, false, map[], a, row), true);
  }

  /** A statement of `x` takes its snapshot and scans row 7. */
  lemma Statement(db: Db, id: nat, x: Xid, a: Xid, fine: bool) returns (db': Db)
    requires Reached(db, fine) && id !in db.readers && x < db.tx.nextXid && 7 in db.rows && db.tx.decided == map[]
    requires VisibleIn(db.rows[7], ReadView(db.tx, map[], db.tx.nextGlobal), Current(db.tx), Some(x), a)
    ensures db' == db.(readers := db.readers[id := Reader(Some(x), Current(db.tx), db.tx.nextGlobal, {}, map[7 := a], {})])
    ensures Reached(db', fine)
  {
    assert db.tx.decided.Keys == {};
    var s := Extend(db, TakeSnapshot(id, Some(x)), fine);
    db' := Extend(s, Scan(id, 7, db.tx.nextGlobal, map[], a), fine);
    assert db'.readers == db.readers[id := Reader(Some(x), Current(db.tx), db.tx.nextGlobal, {}, map[7 := a], {})];
  }

  // ---- A replica that lags ------------------------------------------------------------------

  const BOTH := Snapshot(4, {2, 3})
  const BEGUN := BASE.(tx := Txns(map[1 := Committed], map[], {2, 3}, 4, 2))

  lemma ReachBegun()
    ensures Reached(BEGUN, true)
  {
    ReachBase();
    var s := Extend(BASE, Begin, true);
    s := Extend(s, Begin, true);
    assert s.tx.running == {2, 3};
  }

  /** 2 and 3 have scanned row 7; 2 has locked it. */
  const RACE := BEGUN.(locks := map[7 := 2],
    readers := map[0 := Reader(Some(3), BOTH, 2, {}, map[7 := 1], {}), 1 := Reader(Some(2), BOTH, 2, {}, map[7 := 1], {})])

  lemma ReachRace()
    ensures Reached(RACE, true)
  {
    ReachBegun();
    var s := Statement(BEGUN, 0, 3, 1, true);
    s := Statement(s, 1, 2, 1, true);
    s := Extend(s, Lock(1, 7, 2), true);
  }

  /** 2 has updated the row, is prepared under global transaction 1, which has committed, and has
      released its lock to 3. */
  const LAG := Db(Txns(map[1 := Committed, 2 := Prepared(1)], map[1 := true], {3}, 4, 2),
                  map[7 := map[1 := Version(2, [10]), 2 := Version(INVALID_XID, [20])]], map[7 := map[1 := 0, 2 := 1]], 2,
                  map[7 := 3], true,
                  map[0 := Reader(Some(3), BOTH, 2, {}, map[7 := 1], {}), 1 := Reader(Some(2), BOTH, 2, {}, map[7 := 1], {7})])

  const RACED := RACE.(rows := map[7 := map[1 := Version(2, [10]), 2 := Version(INVALID_XID, [20])]],
                       wrote := map[7 := map[1 := 0, 2 := 1]], clock := 2, readers := LAG.readers)

  lemma RacedRows()
    ensures Superseded(ONE, 2, 1, [20]) == RACED.rows[7]
  {}

  lemma ReachRaced()
    ensures Reached(RACED, true)
  {
    ReachRace();
    RacedRows();
    var s := FirstUpdate(RACE, 1, 2, [20], 1, [10]);
    DoneAfter(RACE.readers[0], 2);
    DoneAfter(RACE.readers[1], 2);
    assert s.rows == RACED.rows && s.wrote == RACED.wrote && s.readers == RACED.readers;
  }

  lemma ReachWon() returns (s: Db)
    ensures Reached(s, true) && s == LAG.(locks := map[7 := 2])
  {
    ReachRaced();
    s := Extend(RACED, Prepare(2, 1), true);
    s := Extend(s, Deregister(2), true);
    s := Extend(s, Decide(1, true), true);
    assert s.tx.running == {3};
  }

  lemma ReachLag()
    ensures Reached(LAG, true)
  {
    var s := ReachWon();
    s := Extend(s, Release(2), true);
    s := Extend(s, Lock(0, 7, 3), true);
    assert s.locks == map[7 := 3];
  }

  lemma LagRecheck()
    ensures EvalPlanQual(LAG.rows[7], LockView(LAG.tx, map[]), BOTH, Current(LAG.tx), 3, false, Operate(1))
  {
    var v, vs := LockView(LAG.tx, map[]), LAG.rows[7];
    assert !ChangedSince(vs, v, BOTH, 3);
    assert Finds(vs, v, BOTH, Some(3), Some(1)) && ToRecheck(Some(1)) == Operate(1);
  }

  /** A LOST UPDATE: a run in which every step meets its condition reaches a state where the re-check,
      on a replica that has not applied a decision, picks a version that has been replaced. */
  lemma LaggingReplica()
    ensures Reached(LAG, true) && Inv(LAG) && CanWrite(LAG, 0, 7, 3, false, map[], 1)
    ensures Head(LAG.tx, LAG.rows[7], 2) && !Head(LAG.tx, LAG.rows[7], 1)
  {
    ReachLag();
    ReachedInv(LAG);
    LagWrite();
  }

  lemma LagWrite()
    ensures CanWrite(LAG, 0, 7, 3, false, map[], 1)
    ensures Head(LAG.tx, LAG.rows[7], 2) && !Head(LAG.tx, LAG.rows[7], 1)
  {
    LagRecheck();
    assert ClogGet(LAG.tx.clog, 3) == InProgress;
  }

  // ---- A replica that has the head's decision but not another -------------------------------

  const BUSY := Txns(map[4 := Committed], map[], {1, 2, 3, 5}, 6, 2)
  const ALL := Snapshot(6, {1, 2, 3, 5})

  /** Row 7, inserted and committed by transaction 4, while 1, 2, 3 and 5 run. */
  const FOURTH := Db(BUSY, map[7 := Only(4, [40])], map[7 := map[4 := 0]], 1, map[], true, map[])

  lemma {:induction false} Begins(db: Db, k: nat) returns (db': Db)
    requires Reached(db, true)
    ensures Reached(db', true)
    ensures db' == db.(tx := db'.tx) && db'.tx == db.tx.(running := db'.tx.running, nextXid := db.tx.nextXid + k)
    ensures forall x: Xid :: x in db'.tx.running <==> x in db.tx.running || db.tx.nextXid <= x < db.tx.nextXid + k
  {
    db' := db;
    if k > 0 {
      db' := Begins(db, k - 1);
      db' := Extend(db', Begin, true);
    }
  }

  lemma ReachFive() returns (s: Db)
    ensures Reached(s, true) && s == INIT.(tx := Txns(map[], map[], {1, 2, 3, 4, 5}, 6, 2), serving := true)
  {
    Start();
    s := Extend(INIT, OpenGate, true);
    s := Extend(s, BeginGlobal, true);
    s := Begins(s, 5);
    assert s.tx.running == {1, 2, 3, 4, 5};
  }

  lemma ReachFourth()
    ensures Reached(FOURTH, true)
  {
    var s := ReachFive();
    s := Extend(s, Insert(4, 7, [40]), true);
    s := Extend(s, Record(4, true), true);
    s := Extend(s, Deregister(4), true);
    assert s.tx.running == {1, 2, 3, 5};
  }

  const FIFTH := Reader(Some(5), ALL, 2, {}, map[7 := 4], {})
  const THIRD := Reader(Some(3), ALL, 2, {}, map[7 := 4], {})

  lemma ReachThird() returns (s: Db)
    ensures Reached(s, true) && s == FOURTH.(locks := map[7 := 3], readers := map[0 := FIFTH, 1 := THIRD])
  {
    ReachFourth();
    s := Statement(FOURTH, 0, 5, 4, true);
    s := Statement(s, 1, 3, 4, true);
    s := Extend(s, Lock(1, 7, 3), true);
  }

  const LINK: map<Xid, Version> := map[4 := Version(3, [40]), 3 := Version(INVALID_XID, [30])]
  const LINKED := Db(BUSY, map[7 := LINK], map[7 := map[4 := 0, 3 := 1]], 2, map[7 := 3], true,
                     map[0 := FIFTH, 1 := THIRD.(done := {7})])

  lemma ReachLinked()
    ensures Reached(LINKED, true)
  {
    var s := ReachThird();
    var t := FirstUpdate(s, 1, 3, [30], 4, [40]);
    DoneAfter(FIFTH, 3);
    DoneAfter(THIRD, 3);
    assert t.rows[7] == LINK;
    assert t.rows == LINKED.rows && t.wrote == LINKED.wrote && t.readers == LINKED.readers;
  }

  const OTHERS := Txns(map[4 := Committed, 3 := Prepared(1)], map[1 := true], {1, 2, 5}, 6, 2)

  /** 3 is prepared under global transaction 1, which has committed; its lock is free. */
  lemma ReachDecided() returns (s: Db)
    ensures Reached(s, true) && s == LINKED.(tx := OTHERS)
  {
    ReachLinked();
    s := Extend(LINKED, Prepare(3, 1), true);
    s := Extend(s, Deregister(3), true);
    assert s.tx.running == {1, 2, 5};
    s := Extend(s, Decide(1, true), true);
  }

  lemma ReachOthers() returns (s: Db)
    ensures Reached(s, true) && s == LINKED.(tx := OTHERS, locks := map[])
  {
    s := ReachDecided();
    s := Extend(s, Release(3), true);
    assert s.locks == map[];
  }

  const SECOND := Reader(Some(2), Snapshot(6, {1, 2, 5}), 2, {1}, map[7 := 3], {})
  const TURN := LINKED.(tx := OTHERS, locks := map[7 := 2], readers := map[0 := FIFTH, 1 := THIRD.(done := {7}), 2 := SECOND])

  lemma ReachSecond() returns (s: Db)
    ensures Reached(s, true)
    ensures s == TURN.(locks := map[],
                       readers := map[0 := FIFTH, 1 := THIRD.(done := {7}), 2 := SECOND.(seen := map[])])
  {
    s := ReachOthers();
    assert OTHERS.decided.Keys == {1};
    s := Extend(s, TakeSnapshot(2, Some(2)), true);
  }

  lemma ReachTurn()
    ensures Reached(TURN, true)
  {
    var s := ReachSecond();
    s := Extend(s, Scan(2, 7, 2, map[1 := true], 3), true);
    assert s.readers == TURN.readers;
    s := Extend(s, Lock(2, 7, 2), true);
  }

  lemma TurnTimely()
    ensures CanWrite(TURN, 2, 7, 2, false, map[1 := true], 3)
    ensures Head(TURN.tx, TURN.rows[7], 3) && Timely(TURN, 7, 2, false, map[1 := true])
  {
    TurnRecheck();
    ReachTurn();
    ReachedInv(TURN);
    RegisteredIsTimely(TURN, 2, 7, 2, false, map[1 := true], 3);
  }

  lemma TurnRecheck()
    ensures CanWrite(TURN, 2, 7, 2, false, map[1 := true], 3) && CaughtUp(TURN.tx, TURN.wrote[7], map[1 := true])
  {
    var v, vs := LockView(OTHERS, map[1 := true]), TURN.rows[7];
    assert !ChangedSince(vs, v, SECOND.snap, 2);
    assert Finds(vs, v, SECOND.snap, Some(2), Some(3)) && ToRecheck(Some(3)) == Operate(3);
  }

  const DOWN: map<Xid, Version> := map[4 := Version(3, [40]), 3 := Version(2, [30]), 2 := Version(INVALID_XID, [20])]

  lemma ReachDown() returns (s: Db)
    ensures Reached(s, true) && s.tx == OTHERS && s.rows == map[7 := DOWN] && s.wrote == map[7 := map[4 := 0, 3 := 1, 2 := 2]]
    ensures s.serving && s.locks == map[7 := 2] && 0 in s.readers && s.readers[0] == FIFTH
  {
    ReachTurn();
    TurnTimely();
    DownRows();
    s := Extend(TURN, Update(2, 7, 2, false, map[1 := true], 3, [20]), true);
    assert s.rows == map[7 := DOWN] && s.wrote == map[7 := map[4 := 0, 3 := 1, 2 := 2]];
  }

  lemma DownRows()
    ensures Superseded(LINK, 2, 3, [20]) == DOWN
  {}

  const SETTLED_TWO := Txns(map[4 := Committed, 3 := Prepared(1), 2 := Committed], map[1 := true], {1, 5}, 6, 2)

  lemma ReachPassed() returns (s: Db)
    ensures Reached(s, true) && s.tx == SETTLED_TWO
    ensures s.rows == map[7 := DOWN] && s.wrote == map[7 := map[4 := 0, 3 := 1, 2 := 2]]
    ensures s.serving && s.locks == map[7 := 5] && 0 in s.readers && s.readers[0] == FIFTH
  {
    s := ReachEnded();
    s := Extend(s, Release(2), true);
    s := Extend(s, Lock(0, 7, 5), true);
    assert s.locks == map[7 := 5];
  }

  lemma ReachEnded() returns (s: Db)
    ensures Reached(s, true) && s.tx == SETTLED_TWO
    ensures s.rows == map[7 := DOWN] && s.wrote == map[7 := map[4 := 0, 3 := 1, 2 := 2]]
    ensures s.serving && s.locks == map[7 := 2] && 0 in s.readers && s.readers[0] == FIFTH
  {
    s := ReachDown();
    s := Extend(s, Record(2, true), true);
    s := Extend(s, Deregister(2), true);
    assert s.tx.running == {1, 5};
  }

  lemma PassedRecheck()
    ensures EvalPlanQual(DOWN, LockView(SETTLED_TWO, map[]), ALL, Current(SETTLED_TWO), 5, false, Operate(4))
  {
    var v := LockView(SETTLED_TWO, map[]);
    assert 3 in DOWN && DOWN[3].xmax == 2 && GlobalStatus(v, 2) == Committed && ALL.IsRunning(2);
    assert ChangedSince(DOWN, v, ALL, 5);
    assert Finds(DOWN, v, Current(SETTLED_TWO), Some(5), Some(4)) && ToRecheck(Some(4)) == Operate(4);
  }

  /** A LOST UPDATE although the replica reports the head: it misses the decision of the successor of
      a version with a greater xid, which the re-check then takes. */
  lemma GreaterXid() returns (s: Db)
    ensures Reached(s, true) && Inv(s) && CanWrite(s, 0, 7, 5, false, map[], 4)
    ensures Head(s.tx, s.rows[7], 2) && Shown(s.tx, map[], 5, 2) && !Head(s.tx, s.rows[7], 4)
  {
    s := ReachPassed();
    ReachedInv(s);
    PassedRecheck();
    PassedHeads();
  }

  lemma PassedHeads()
    ensures Head(SETTLED_TWO, DOWN, 2) && Shown(SETTLED_TWO, map[], 5, 2) && !Head(SETTLED_TWO, DOWN, 4)
    ensures Open(SETTLED_TWO, 5)
  {}

  // ---- A write after the marker -----------------------------------------------------------

  /** 2 is prepared under global transaction 1 and deregistered; 3 holds row 7. */
  const MARKED := Db(Txns(map[1 := Committed, 2 := Prepared(1)], map[], {3}, 4, 2), map[7 := ONE], map[7 := map[1 := 0]], 1,
                     map[7 := 3], true, map[0 := Reader(Some(3), Snapshot(4, {3}), 2, {}, map[7 := 1], {})])

  lemma ReachMarked()
    ensures Reached(MARKED, true)
  {
    ReachBegun();
    var s := Extend(BEGUN, Prepare(2, 1), true);
    s := Extend(s, Deregister(2), true);
    assert s.tx.running == {3};
    s := Statement(s, 0, 3, 1, true);
    s := Extend(s, Lock(0, 7, 3), true);
  }

  /** 3 has updated the row and committed; snapshot 1 was taken just before it committed. */
  const MOVED := Db(Txns(map[1 := Committed, 2 := Prepared(1), 3 := Committed], map[], {}, 4, 2),
                    map[7 := map[1 := Version(3, [10]), 3 := Version(INVALID_XID, [30])]], map[7 := map[1 := 0, 3 := 1]], 2,
                    map[], true,
                    map[0 := Reader(Some(3), Snapshot(4, {3}), 2, {}, map[7 := 1], {7}),
                        1 := Reader(None, Snapshot(4, {3}), 2, {}, map[], {})])

  const UPDATED := MARKED.(rows := MOVED.rows, wrote := MOVED.wrote, clock := 2,
                           readers := map[0 := Reader(Some(3), Snapshot(4, {3}), 2, {}, map[7 := 1], {7})])

  lemma ReachUpdated()
    ensures Reached(UPDATED, true)
  {
    ReachMarked();
    var s := FirstUpdate(MARKED, 0, 3, [30], 1, [10]);
    assert s.rows[7] == UPDATED.rows[7];
    DoneAfter(MARKED.readers[0], 3);
    assert s.rows == UPDATED.rows && s.wrote == UPDATED.wrote && s.readers == UPDATED.readers;
  }

  lemma ReachWatched() returns (s: Db)
    ensures Reached(s, true) && s == UPDATED.(readers := MOVED.readers)
  {
    ReachUpdated();
    assert UPDATED.tx.decided.Keys == {};
    s := Extend(UPDATED, TakeSnapshot(1, None), true);
    assert s.readers == MOVED.readers;
  }

  lemma ReachMoved()
    ensures Reached(MOVED, true)
  {
    var s := ReachWatched();
    s := Extend(s, Record(3, true), true);
    s := Extend(s, Deregister(3), true);
    assert s.tx.running == {};
    s := Extend(s, Release(3), true);
    assert s.locks == map[];
  }

  /** The marked participant 2 has scanned and locked the row that 3 has updated. */
  const LATE := MOVED.(readers := MOVED.readers[2 := Reader(Some(2), Snapshot(4, {}), 2, {}, map[7 := 3], {})],
                       locks := map[7 := 2])

  lemma ReachLate()
    ensures Reached(LATE, true)
  {
    ReachMoved();
    var s := Statement(MOVED, 2, 2, 3, true);
    s := Extend(s, Lock(2, 7, 2), true);
  }

  lemma LateRecheck()
    ensures EvalPlanQual(LATE.rows[7], LockView(LATE.tx, map[]), Snapshot(4, {}), Current(LATE.tx), 2, false, Operate(3))
  {
    var v, vs := LockView(LATE.tx, map[]), LATE.rows[7];
    assert !ChangedSince(vs, v, Snapshot(4, {}), 2);
    assert Finds(vs, v, Snapshot(4, {}), Some(2), Some(3)) && ToRecheck(Some(3)) == Operate(3);
  }

  lemma LateCanWrite()
    ensures CanWrite(LATE, 2, 7, 2, false, map[], 3) && Head(LATE.tx, LATE.rows[7], 3)
    ensures !Timely(LATE, 7, 2, false, map[])
  {
    LateRecheck();
    var rd := LATE.readers[1];
    assert AfterWrite(rd, 2, 7, false, map[]) == rd && 7 !in rd.done;
    assert !Covers(LATE.tx, rd, 3) && Alive(LATE.tx, 3) && rd.Sees(2);
  }

  lemma Relax(db: Db)
    requires Reached(db, true)
    ensures Reached(db, false)
  {
    var acts :| Path(INIT, acts, db, true);
    Forget(INIT, acts, db);
  }

  lemma {:induction false} Forget(db: Db, acts: seq<Action>, db': Db)
    requires Path(db, acts, db', true)
    ensures Path(db, acts, db', false)
    decreases |acts|
  {
    if acts != [] { Forget(Apply(db, acts[0]), acts[1..], db'); }
  }

  /** What the late write and the commit of its global transaction leave behind. */
  const FORKED: map<Xid, Version> := map[1 := Version(3, [10]), 3 := Version(2, [30]), 2 := Version(INVALID_XID, [20])]
  const DECIDED := Txns(map[1 := Committed, 2 := Prepared(1), 3 := Committed], map[1 := true], {}, 4, 2)

  lemma ForkedRows()
    ensures Superseded(LATE.rows[7], 2, 3, [20]) == FORKED
  {}

  lemma LateUpdate() returns (s: Db)
    ensures Reached(s, false) && s.tx == LATE.tx && s.rows == map[7 := FORKED]
    ensures 1 in s.readers && s.readers[1] == Reader(None, Snapshot(4, {3}), 2, {}, map[], {})
  {
    ReachLate();
    Relax(LATE);
    LateCanWrite();
    ForkedRows();
    s := Extend(LATE, Update(2, 7, 2, false, map[], 3, [20]), false);
    assert s.rows == map[7 := FORKED];
  }

  lemma ReachForked() returns (s: Db)
    ensures Reached(s, false) && s.tx == DECIDED && s.rows == map[7 := FORKED]
    ensures 1 in s.readers && s.readers[1] == Reader(None, Snapshot(4, {3}), 2, {}, map[], {})
  {
    s := LateUpdate();
    s := Extend(s, Decide(1, true), false);
  }

  /** TWO LIVE VERSIONS: every step of the run meets its condition but the write of a participant that
      has left the running set, which is not timely; a snapshot then sees versions 1 and 2. */
  lemma LateWrite() returns (s: Db)
    ensures Reached(LATE, true) && CanWrite(LATE, 2, 7, 2, false, map[], 3) && !Timely(LATE, 7, 2, false, map[])
    ensures Reached(s, false) && CanScan(s, 1, 7, 2, map[1 := true], 1) && CanScan(s, 1, 7, 2, map[1 := true], 2)
  {
    ReachLate();
    LateCanWrite();
    s := ReachForked();
  }

  // ---- A session that outlives a change of leader -----------------------------------------

  const PAIR: map<Xid, Version> := map[1 := Version(2, [10]), 2 := Version(INVALID_XID, [20])]

  /** 2 holds row 7. */
  const HELD := BASE.(tx := Txns(map[1 := Committed], map[], {2}, 3, 2), locks := map[7 := 2],
                      readers := map[0 := Reader(Some(2), Snapshot(3, {2}), 2, {}, map[7 := 1], {})])

  lemma ReachHeld()
    ensures Reached(HELD, true)
  {
    ReachBase();
    var s := Extend(BASE, Begin, true);
    assert s.tx.running == {2};
    s := Statement(s, 0, 2, 1, true);
    s := Extend(s, Lock(0, 7, 2), true);
  }

  /** 2 has updated the row; leadership moved and the new leader serves. */
  const TAKEN := Db(Txns(map[1 := Committed], map[], {}, 3, 2), map[7 := PAIR], map[7 := map[1 := 0, 2 := 1]], 2, map[],
                    true, map[])

  lemma HeldUpdate() returns (s: Db)
    ensures Reached(s, true)
    ensures s == HELD.(rows := TAKEN.rows, wrote := TAKEN.wrote, clock := 2, readers := map[0 := HELD.readers[0].(done := {7})])
  {
    ReachHeld();
    s := FirstUpdate(HELD, 0, 2, [20], 1, [10]);
    assert s.rows[7] == PAIR;
    DoneAfter(HELD.readers[0], 2);
    assert s.rows == TAKEN.rows && s.wrote == TAKEN.wrote && s.readers == map[0 := HELD.readers[0].(done := {7})];
  }

  lemma ReachTaken()
    ensures Reached(TAKEN, true)
  {
    var s := HeldUpdate();
    s := Extend(s, Failover, true);
    s := Extend(s, OpenGate, true);
  }

  /** Under the new leader 3 has scanned and locked the row. */
  const AGAIN := TAKEN.(tx := Txns(map[1 := Committed], map[], {3}, 4, 2), locks := map[7 := 3],
                        readers := map[0 := Reader(Some(3), Snapshot(4, {3}), 2, {}, map[7 := 1], {})])

  lemma ReachAgain()
    ensures Reached(AGAIN, true)
  {
    ReachTaken();
    var s := Extend(TAKEN, Begin, true);
    assert s.tx.running == {3};
    s := Statement(s, 0, 3, 1, true);
    s := Extend(s, Lock(0, 7, 3), true);
  }

  lemma AgainRecheck()
    ensures EvalPlanQual(PAIR, LockView(AGAIN.tx, map[]), Snapshot(4, {3}), Current(AGAIN.tx), 3, false, Operate(1))
  {
    var v := LockView(AGAIN.tx, map[]);
    assert !ChangedSince(PAIR, v, Snapshot(4, {3}), 3);
    assert Finds(PAIR, v, Snapshot(4, {3}), Some(3), Some(1)) && ToRecheck(Some(1)) == Operate(1);
  }

  const TWO_HEADS: map<Xid, Version> :=
    map[1 := Version(3, [10]), 2 := Version(INVALID_XID, [20]), 3 := Version(INVALID_XID, [30])]

  /** 3 has replaced version 1, as if 2 had aborted, and committed; the old leader is back. */
  const BACK := Db(Txns(map[1 := Committed, 3 := Committed], map[], {}, 4, 2), map[7 := TWO_HEADS],
                   map[7 := map[1 := 0, 2 := 1, 3 := 2]], 3, map[], false, map[])

  lemma AgainCanWrite()
    ensures CanWrite(AGAIN, 0, 7, 3, false, map[], 1) && CaughtUp(AGAIN.tx, AGAIN.wrote[7], map[])
  {
    AgainRecheck();
  }

  lemma AgainTimely()
    ensures CanWrite(AGAIN, 0, 7, 3, false, map[], 1)
    ensures Head(AGAIN.tx, AGAIN.rows[7], 1) && Timely(AGAIN, 7, 3, false, map[])
  {
    AgainCanWrite();
    ReachAgain();
    ReachedInv(AGAIN);
    RegisteredIsTimely(AGAIN, 0, 7, 3, false, map[], 1);
  }

  lemma AgainUpdate() returns (s: Db)
    ensures Reached(s, true) && s.tx == AGAIN.tx && s.rows == BACK.rows && s.wrote == BACK.wrote && s.clock == 3
  {
    ReachAgain();
    AgainTimely();
    s := Extend(AGAIN, Update(0, 7, 3, false, map[], 1, [30]), true);
    AgainRows();
    assert s.rows == BACK.rows && s.wrote == BACK.wrote;
  }

  lemma AgainRows()
    ensures Superseded(PAIR, 3, 1, [30]) == TWO_HEADS
  {}

  lemma ReachBack()
    ensures Reached(BACK, true)
  {
    var s := AgainUpdate();
    s := Extend(s, Record(3, true), true);
    s := Extend(s, Deregister(3), true);
    s := Extend(s, Failover, true);
  }

  const RETURNED := Txns(map[1 := Committed, 3 := Committed, 2 := Committed], map[], {}, 4, 2)

  lemma Return() returns (s: Db)
    ensures CanRejoin(BACK, 2) && Reached(s, false)
    ensures s.tx == RETURNED && s.rows == BACK.rows && s.readers == map[]
  {
    ReachBack();
    Relax(BACK);
    s := Extend(BACK, Rejoin(2), false);
    s := Extend(s, Record(2, true), false);
    s := Extend(s, Deregister(2), false);
    assert s.tx.running == {};
  }

  /** TWO LIVE VERSIONS: every step of the run meets its condition but the return of transaction 2,
      whose row has been overwritten since; it commits, and a fresh snapshot sees versions 2 and 3. */
  lemma SurvivingSession() returns (s: Db)
    ensures Reached(BACK, true) && CanRejoin(BACK, 2) && !Unfollowed(BACK, 2)
    ensures Reached(s, false) && CanScan(s, 0, 7, 2, map[], 2) && CanScan(s, 0, 7, 2, map[], 3)
  {
    ReachBack();
    BackFollowed();
    s := Return();
    s := Extend(s, TakeSnapshot(0, None), false);
  }

  lemma BackFollowed()
    ensures !Unfollowed(BACK, 2)
  {
    assert 3 in BACK.wrote[7];
    assert !Newest(BACK.wrote[7], 2);
  }

  // ---- A gate that opens over a marker in doubt -----------------------------------------------

  /** 2 has updated the row and staged it under global transaction 1, undecided; the leader changed. */
  const INHERITED := Db(Txns(map[1 := Committed, 2 := Prepared(1)], map[], {}, 4, 2), RACED.rows, RACED.wrote, 2, map[],
                        false, map[])

  lemma ReachInherited()
    ensures Reached(INHERITED, true)
  {
    ReachRaced();
    var s := Extend(RACED, Prepare(2, 1), true);
    s := Extend(s, Failover, true);
  }

  lemma InheritedUnguarded()
    ensures !AllGuarded(INHERITED)
  {
    assert 2 in INHERITED.wrote[7] && !Quiet(INHERITED.tx, 2) && 1 in INHERITED.wrote[7];
    assert !Guarded(INHERITED.tx, Holder(INHERITED, 7), INHERITED.wrote[7]);
  }

  const NEWCOMER := Reader(Some(4), Snapshot(5, {4}), 2, {}, map[7 := 1], {})

  /** The gate is open; 4 has scanned and locked the row. */
  const AROUND := Db(Txns(map[1 := Committed, 2 := Prepared(1)], map[], {4}, 5, 2), RACED.rows, RACED.wrote, 2, map[7 := 4],
                     true, map[0 := NEWCOMER])

  lemma ReachGate() returns (s: Db)
    ensures Reached(s, false) && s == AROUND.(locks := map[], readers := map[])
  {
    ReachInherited();
    Relax(INHERITED);
    s := Extend(INHERITED, OpenGate, false);
    s := Extend(s, Begin, false);
    assert s.tx.running == {4};
  }

  lemma ReachAround()
    ensures Reached(AROUND, false)
  {
    var s := ReachGate();
    s := Statement(s, 0, 4, 1, false);
    s := Extend(s, Lock(0, 7, 4), false);
  }

  lemma AroundRecheck()
    ensures CanWrite(AROUND, 0, 7, 4, false, map[], 1) && CaughtUp(AROUND.tx, AROUND.wrote[7], map[])
  {
    var v, vs := LockView(AROUND.tx, map[]), AROUND.rows[7];
    assert !ChangedSince(vs, v, NEWCOMER.snap, 4);
    assert Finds(vs, v, NEWCOMER.snap, Some(4), Some(1)) && ToRecheck(Some(1)) == Operate(1);
  }

  const SPLIT: map<Xid, Version> :=
    map[1 := Version(4, [10]), 2 := Version(INVALID_XID, [20]), 4 := Version(INVALID_XID, [40])]

  lemma AroundUpdate() returns (s: Db)
    ensures Reached(s, false) && s.tx == AROUND.tx && s.rows == map[7 := SPLIT] && s.readers.Keys == {0}
  {
    ReachAround();
    AroundRecheck();
    SplitRows();
    s := Extend(AROUND, Update(0, 7, 4, false, map[], 1, [40]), false);
    assert s.rows == map[7 := SPLIT];
  }

  lemma SplitRows()
    ensures Superseded(AROUND.rows[7], 4, 1, [40]) == SPLIT
  {}

  lemma ReachSplit() returns (s: Db)
    ensures Reached(s, false) && s.rows == map[7 := SPLIT] && s.readers.Keys == {0}
    ensures s.tx == Txns(map[1 := Committed, 2 := Prepared(1), 4 := Committed], map[1 := true], {}, 5, 2)
  {
    s := AroundUpdate();
    s := Extend(s, Record(4, true), false);
    s := Extend(s, Deregister(4), false);
    assert s.tx.running == {};
    s := Extend(s, Decide(1, true), false);
  }

  /** TWO LIVE VERSIONS: every step of the run meets its condition but the opening of the gate over a
      row whose marker in doubt holds no lock; a writer goes around it, both commit, and a fresh
      snapshot sees versions 2 and 4. */
  lemma EarlyGate() returns (s: Db)
    ensures Reached(INHERITED, true) && !AllGuarded(INHERITED)
    ensures Reached(s, false) && CanScan(s, 1, 7, 2, map[1 := true], 2) && CanScan(s, 1, 7, 2, map[1 := true], 4)
  {
    ReachInherited();
    InheritedUnguarded();
    s := ReachSplit();
    SplitTwice();
    assert s.tx.decided.Keys == {1};
    s := Extend(s, TakeSnapshot(1, None), false);
  }

  lemma SplitTwice()
    ensures var tx := Txns(map[1 := Committed, 2 := Prepared(1), 4 := Committed], map[1 := true], {}, 5, 2);
            && VisibleIn(SPLIT, ReadView(tx, map[1 := true], 2), Snapshot(5, {}), None, 2)
            && VisibleIn(SPLIT, ReadView(tx, map[1 := true], 2), Snapshot(5, {}), None, 4)
  {}

  // ---- A global snapshot older than the local one -----------------------------------------------

  const EARLY := Txns(map[1 := Committed, 2 := Prepared(1)], map[1 := true], {}, 3, 2)

  /** 2 has updated the row under global transaction 1, which has committed. */
  lemma ReachEarly() returns (s: Db)
    ensures Reached(s, true)
    ensures s == TAKEN.(tx := EARLY, readers := map[0 := HELD.readers[0].(done := {7})])
  {
    s := HeldUpdate();
    s := Extend(s, Prepare(2, 1), true);
    s := Extend(s, Deregister(2), true);
    assert s.tx.running == {};
    s := Extend(s, Decide(1, true), true);
    s := Extend(s, Release(2), true);
    assert s.locks == map[];
  }

  const OVERWRITER := Reader(Some(3), Snapshot(4, {3}), 2, {1}, map[7 := 2], {})
  const LATER := TAKEN.(tx := Txns(map[1 := Committed, 2 := Prepared(1)], map[1 := true], {3}, 4, 2), locks := map[7 := 3],
                        readers := map[0 := HELD.readers[0].(done := {7}), 1 := OVERWRITER])

  lemma ReachBegan() returns (s: Db)
    ensures Reached(s, true)
    ensures s == LATER.(locks := map[], readers := map[0 := HELD.readers[0].(done := {7}), 1 := OVERWRITER.(seen := map[])])
  {
    s := ReachEarly();
    s := Extend(s, Begin, true);
    assert s.tx.running == {3} && s.tx.decided.Keys == {1};
    s := Extend(s, TakeSnapshot(1, Some(3)), true);
  }

  lemma ReachLater()
    ensures Reached(LATER, true)
  {
    var s := ReachBegan();
    s := Extend(s, Scan(1, 7, 2, map[1 := true], 2), true);
    assert s.readers == LATER.readers;
    s := Extend(s, Lock(1, 7, 3), true);
  }

  lemma LaterRecheck()
    ensures CanWrite(LATER, 1, 7, 3, false, map[1 := true], 2) && CaughtUp(LATER.tx, LATER.wrote[7], map[1 := true])
  {
    var v := LockView(LATER.tx, map[1 := true]);
    assert !ChangedSince(PAIR, v, OVERWRITER.snap, 3);
    assert Finds(PAIR, v, OVERWRITER.snap, Some(3), Some(2)) && ToRecheck(Some(2)) == Operate(2);
  }

  lemma LaterTimely()
    ensures CanWrite(LATER, 1, 7, 3, false, map[1 := true], 2)
    ensures Head(LATER.tx, LATER.rows[7], 2) && Timely(LATER, 7, 3, false, map[1 := true])
  {
    LaterRecheck();
    ReachLater();
    ReachedInv(LATER);
    RegisteredIsTimely(LATER, 1, 7, 3, false, map[1 := true], 2);
  }

  /** Row 7: inserted by 1, updated by 2 under global transaction 1, updated by 3. */
  const CHAIN: map<Xid, Version> := map[1 := Version(2, [10]), 2 := Version(3, [20]), 3 := Version(INVALID_XID, [30])]

  lemma ChainRows()
    ensures Superseded(PAIR, 3, 2, [30]) == CHAIN
  {}

  lemma LaterUpdate() returns (s: Db)
    ensures Reached(s, true) && s.tx == LATER.tx && s.rows == map[7 := CHAIN] && s.readers.Keys == {0, 1}
  {
    ReachLater();
    LaterTimely();
    ChainRows();
    s := Extend(LATER, Update(1, 7, 3, false, map[1 := true], 2, [30]), true);
    assert s.rows == map[7 := CHAIN];
  }

  const OVER := Txns(map[1 := Committed, 2 := Prepared(1), 3 := Committed], map[1 := true], {}, 4, 2)

  lemma ReachOver() returns (s: Db)
    ensures Reached(s, true) && s.tx == OVER && s.rows == map[7 := CHAIN]
    ensures 2 in s.readers && s.readers[2].own == None && s.readers[2].snap == Snapshot(4, {})
  {
    s := LaterUpdate();
    s := Extend(s, Record(3, true), true);
    s := Extend(s, Deregister(3), true);
    assert s.tx.running == {};
    s := Extend(s, TakeSnapshot(2, None), true);
  }

  /** The autocommit read takes its global snapshot before its local one. In a run whose every step
      meets its condition a global transaction begins, commits and is overwritten in between: the
      global snapshot, from before the run, hides it and the local one does not, so the read sees the
      version before it and the version after it. */
  lemma EarlyGlobalSnapshot() returns (s: Db)
    ensures Reached(s, true) && Inv(s) && 7 in s.rows && 2 in s.readers
    ensures TwoLive(s.rows[7], ReadView(s.tx, s.tx.decided, INIT.tx.nextGlobal), s.readers[2].snap, s.readers[2].own)
  {
    s := ReachOver();
    ReachedInv(s);
    OverTwice();
  }

  lemma OverTwice()
    ensures TwoLive(CHAIN, ReadView(OVER, OVER.decided, 1), Snapshot(4, {}), None)
  {
    var v := ReadView(OVER, OVER.decided, 1);
    assert VisibleIn(CHAIN, v, Snapshot(4, {}), None, 1) && VisibleIn(CHAIN, v, Snapshot(4, {}), None, 3);
  }
}
