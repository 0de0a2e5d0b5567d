/** One range's write path as a state machine: row versions, clog, row locks, the recovery
    gate and range 0's write-once decisions, under every interleaving of begin, snapshot,
    scan, lock, write, commit, abort, prepare, decide, release, failover and gate opening. */
module Mvcc {
  import opened Base
  import opened Visibility

  /** The transaction registry: this range's clog, range 0's decisions (`true` for committed),
      the running set and the two xid counters. */
  datatype Txns = Txns(clog: map<Xid, Status>, decided: map<Xid, bool>, running: set<Xid>,
                       nextXid: Xid, nextGlobal: Xid)

  /** A snapshot in use. `own` is the reading transaction, `gfloor` the next global xid and
      `dfloor` the global decisions at or after the moment the snapshot was taken, `seen` the
      versions its scan returned, `done` the rows its statement has already rewritten. */
  datatype Reader = Reader(own: Option<Xid>, snap: Snapshot, gfloor: Xid, dfloor: set<Xid>,
                           seen: map<RowId, Xid>, done: set<RowId>) {
    predicate Sees(x: Xid) { own == Some(x) || !snap.IsRunning(x) }
  }

  /** `wrote[r]` is a history variable: the moment each transaction first wrote row `r`. */
  datatype Db = Db(tx: Txns, rows: map<RowId, map<Xid, Version>>, wrote: map<RowId, map<Xid, nat>>, clock: nat,
                   locks: map<RowId, Xid>, serving: bool, readers: map<nat, Reader>)

  const INIT := Db(Txns(map[], map[], {}, 1, 1), map[], map[], 0, map[], false, map[])

  datatype Action =
    | Begin
    | BeginGlobal
    | TakeSnapshot(id: nat, own: Option<Xid>)
    | Scan(id: nat, r: RowId, gx: Xid, view: map<Xid, bool>, a: Xid)
    | Lock(id: nat, r: RowId, x: Xid)
    | Insert(x: Xid, r: RowId, row: Tuple)
    | Update(id: nat, r: RowId, x: Xid, rr: bool, view: map<Xid, bool>, cur: Xid, row: Tuple)
    | Delete(id: nat, r: RowId, x: Xid, rr: bool, view: map<Xid, bool>, cur: Xid)
    | Record(x: Xid, commit: bool)
    | Prepare(x: Xid, g: Xid)
    | Deregister(x: Xid)
    | Release(x: Xid)
    | Decide(g: Xid, commit: bool)
    | Failover
    | Rejoin(x: Xid)
    | OpenGate

  // ---- Outcomes of a transaction ------------------------------------------------------

  /** Its effects are permanent. */
  predicate Won(tx: Txns, x: Xid) {
    match ClogGet(tx.clog, x)
    case Committed => true
    case Prepared(g) => g in tx.decided && tx.decided[g]
    case _ => false
  }

  /** Its outcome can no longer change; an unregistered xid without a record is aborted. */
  predicate Settled(tx: Txns, x: Xid) {
    match ClogGet(tx.clog, x)
    case InProgress => x !in tx.running
    case Prepared(g) => g in tx.decided
    case _ => true
  }

  predicate Alive(tx: Txns, x: Xid) { Won(tx, x) || !Settled(tx, x) }

  /** Settled and deregistered. */
  predicate Quiet(tx: Txns, x: Xid) { Settled(tx, x) && x !in tx.running }

  /** Registered, with nothing recorded yet. */
  predicate Active(tx: Txns, x: Xid) { x in tx.running && x !in tx.clog }

  /** May still lock and write: registered, or marked with its global transaction undecided. */
  predicate Open(tx: Txns, x: Xid) { !Settled(tx, x) }

  /** The version an update must build on: its creator is not aborted and nobody that is not
      aborted has superseded or deleted it. */
  predicate Head(tx: Txns, vs: map<Xid, Version>, a: Xid) {
    a in vs && Alive(tx, a) && (vs[a].xmax == INVALID_XID || !Alive(tx, vs[a].xmax))
  }

  // ---- Guards -----------------------------------------------------------------------------

  predicate Agrees(view: map<Xid, bool>, decided: map<Xid, bool>) {
    view.Keys <= decided.Keys && forall g | g in view :: view[g] == decided[g]
  }

  /** A replica of range 0 that has applied everything the reader's floor has. */
  predicate ReplicaFor(tx: Txns, rd: Reader, view: map<Xid, bool>) {
    Agrees(view, tx.decided) && rd.dfloor <= view.Keys
  }

  /** The replica has applied every decision governing a writer of the row. */
  predicate CaughtUp(tx: Txns, w: map<Xid, nat>, view: map<Xid, bool>) {
    forall a | a in w ::
      ClogGet(tx.clog, a).Prepared? && ClogGet(tx.clog, a).g in tx.decided ==> ClogGet(tx.clog, a).g in view
  }

  function ReadView(tx: Txns, view: map<Xid, bool>, gx: Xid): View { View(tx.clog, view, Snapshot(gx, {})) }

  function LockView(tx: Txns, view: map<Xid, bool>): View { View(tx.clog, view, SETTLED) }

  function Current(tx: Txns): Snapshot { Snapshot(tx.nextXid, tx.running) }

  /** The scan of snapshot `id` returns version `a` of the row. */
  predicate CanScan(db: Db, id: nat, r: RowId, gx: Xid, view: map<Xid, bool>, a: Xid) {
    && id in db.readers && r in db.rows
    && ReplicaFor(db.tx, db.readers[id], view) && db.readers[id].gfloor <= gx
    && VisibleIn(db.rows[r], ReadView(db.tx, view, gx), db.readers[id].snap, db.readers[id].own, a)
  }

  predicate CanLock(db: Db, id: nat, r: RowId, x: Xid) {
    && db.serving && Open(db.tx, x)
    && id in db.readers && db.readers[id].own == Some(x) && r in db.readers[id].seen
    && (r in db.locks ==> db.locks[r] == x)
  }

  /** The row was scanned by the statement's reader and is locked by its transaction. */
  predicate Locked(db: Db, id: nat, r: RowId, x: Xid) {
    && db.serving && Open(db.tx, x)
    && id in db.readers && db.readers[id].own == Some(x)
    && r in db.readers[id].seen && r !in db.readers[id].done
    && r in db.rows && r in db.wrote
    && r in db.locks && db.locks[r] == x
  }

  /** The guard of an update or delete: the re-check under the lock chose version `cur`. */
  ghost predicate CanWrite(db: Db, id: nat, r: RowId, x: Xid, rr: bool, view: map<Xid, bool>, cur: Xid) {
    && Locked(db, id, r, x)
    && ReplicaFor(db.tx, db.readers[id], view)
    && EvalPlanQual(db.rows[r], LockView(db.tx, view), db.readers[id].snap, Current(db.tx), x, rr, Operate(cur))
    && cur in db.rows[r]
    && (rr ==> forall i | i in db.readers && db.readers[i].own == Some(x) :: db.readers[i].snap == db.readers[id].snap)
  }

  /** The new leader led before and kept its memory: `x` is a transaction it still has open, so no
      snapshot it takes lists `x` as finished. */
  predicate CanRejoin(db: Db, x: Xid) {
    && !db.serving && 0 < x < db.tx.nextXid && x !in db.tx.clog && x !in db.tx.running
    && forall i | i in db.readers :: db.readers[i].snap.IsRunning(x)
  }

  ghost predicate Enabled(db: Db, act: Action) {
    match act
    case Begin => true
    case BeginGlobal => db.tx.nextGlobal + 1 < MAX_U64
    case TakeSnapshot(id, own) => id !in db.readers && (own.Some? ==> own.value < db.tx.nextXid)
    case Scan(id, r, gx, view, a) => CanScan(db, id, r, gx, view, a)
    case Lock(id, r, x) => CanLock(db, id, r, x)
    case Insert(x, r, row) => db.serving && Open(db.tx, x) && r !in db.rows && r !in db.wrote
    case Update(id, r, x, rr, view, cur, row) => CanWrite(db, id, r, x, rr, view, cur)
    case Delete(id, r, x, rr, view, cur) => CanWrite(db, id, r, x, rr, view, cur)
    case Record(x, commit) => Active(db.tx, x)
    case Prepare(x, g) => Active(db.tx, x) && g < db.tx.nextGlobal
    case Deregister(x) => x in db.tx.running
    case Release(x) => Quiet(db.tx, x)
    case Decide(g, commit) => g < db.tx.nextGlobal && g !in db.tx.decided
    case Failover => true
    case Rejoin(x) => CanRejoin(db, x)
    case OpenGate => true
  }

  // ---- Effects ----------------------------------------------------------------------------

  /** A write under READ COMMITTED may have bypassed the statement's snapshot on this row, so
      the row is done for that statement; the writer's replica never goes back. */
  function AfterWrite(rd: Reader, x: Xid, r: RowId, rr: bool, view: map<Xid, bool>): Reader {
    if rd.own != Some(x) then rd
    else if rr then rd.(dfloor := rd.dfloor + view.Keys)
    else rd.(dfloor := rd.dfloor + view.Keys, done := rd.done + {r})
  }

  /** The writers of a row once `x` has rewritten the version created by `cur`. */
  function NewStamps(w: map<Xid, nat>, x: Xid, cur: Xid, clock: nat): map<Xid, nat> {
    if cur != x then w[x := clock] else w
  }

  function Rewrite(db: Db, x: Xid, r: RowId, rr: bool, view: map<Xid, bool>, cur: Xid, vs: map<Xid, Version>): Db
    requires r in db.wrote
  {
    db.(rows := db.rows[r := vs],
        wrote := db.wrote[r := NewStamps(db.wrote[r], x, cur, db.clock)],
        clock := db.clock + 1,
        readers := map i | i in db.readers :: AfterWrite(db.readers[i], x, r, rr, view))
  }

  function DoBegin(tx: Txns): Txns { tx.(running := tx.running + {tx.nextXid}, nextXid := tx.nextXid + 1) }

  function DoSnapshot(db: Db, id: nat, own: Option<Xid>): Db {
    db.(readers := db.readers[id := Reader(own, Current(db.tx), db.tx.nextGlobal, db.tx.decided.Keys, map[], {})])
  }

  function DoScan(db: Db, id: nat, r: RowId, a: Xid): Db
    requires id in db.readers
  {
    db.(readers := db.readers[id := db.readers[id].(seen := db.readers[id].seen[r := a])])
  }

  function DoInsert(db: Db, x: Xid, r: RowId, row: Tuple): Db {
    db.(rows := db.rows[r := map[x := Version(INVALID_XID, row)]],
        wrote := db.wrote[r := map[x := db.clock]], clock := db.clock + 1)
  }

  /** In place on the transaction's own version, otherwise stamp the old and add a new one. */
  function Superseded(vs: map<Xid, Version>, x: Xid, cur: Xid, row: Tuple): map<Xid, Version>
    requires cur in vs
  {
    if cur == x then vs[x := Version(INVALID_XID, row)]
    else vs[cur := vs[cur].(xmax := x)][x := Version(INVALID_XID, row)]
  }

  function DoRelease(db: Db, x: Xid): Db {
    db.(locks := map r | r in db.locks && db.locks[r] != x :: db.locks[r])
  }

  function DoFailover(db: Db): Db {
    db.(tx := db.tx.(running := {}), locks := map[], serving := false, readers := map[])
  }

  /** The transaction is registered again, with the row locks it still holds. */
  function DoRejoin(db: Db, x: Xid): Db {
    db.(tx := db.tx.(running := db.tx.running + {x}),
        locks := db.locks + map r | r in db.wrote && x in db.wrote[r] :: x)
  }

  ghost function Apply(db: Db, act: Action): Db
    requires Enabled(db, act)
  {
    match act
    case Begin => db.(tx := DoBegin(db.tx))
    case BeginGlobal => db.(tx := db.tx.(nextGlobal := db.tx.nextGlobal + 1))
    case TakeSnapshot(id, own) => DoSnapshot(db, id, own)
    case Scan(id, r, gx, view, a) => DoScan(db, id, r, a)
    case Lock(id, r, x) => db.(locks := db.locks[r := x])
    case Insert(x, r, row) => DoInsert(db, x, r, row)
    case Update(id, r, x, rr, view, cur, row) =>
      Rewrite(db, x, r, rr, view, cur, Superseded(db.rows[r], x, cur, row))
    case Delete(id, r, x, rr, view, cur) =>
      Rewrite(db, x, r, rr, view, cur, db.rows[r][cur := db.rows[r][cur].(xmax := x)])
    case Record(x, commit) =>
      db.(tx := db.tx.(clog := db.tx.clog[x := if commit then Committed else Aborted]))
    case Prepare(x, g) => db.(tx := db.tx.(clog := db.tx.clog[x := Prepared(g)]))
    case Deregister(x) => db.(tx := db.tx.(running := db.tx.running - {x}))
    case Release(x) => DoRelease(db, x)
    case Decide(g, commit) => db.(tx := db.tx.(decided := db.tx.decided[g := commit]))
    case Failover => DoFailover(db)
    case Rejoin(x) => DoRejoin(db, x)
    case OpenGate => db.(serving := true)
  }

  ghost predicate Legal(db: Db, acts: seq<Action>)
    decreases |acts|
  {
    acts == [] || (Enabled(db, acts[0]) && Legal(Apply(db, acts[0]), acts[1..]))
  }

  ghost function Run(db: Db, acts: seq<Action>): Db
    requires Legal(db, acts)
    decreases |acts|
  {
    if acts == [] then db else Run(Apply(db, acts[0]), acts[1..])
  }

  // ---- The invariant ------------------------------------------------------------------

  ghost predicate TxnsOk(tx: Txns) {
    && (forall x | x in tx.running :: 0 < x < tx.nextXid)
    && (forall x | x in tx.clog :: 0 < x < tx.nextXid)
    && (forall x | x in tx.clog && tx.clog[x].Prepared? :: tx.clog[x].g < tx.nextGlobal)
    && (forall g | g in tx.decided :: g < tx.nextGlobal)
    && 0 < tx.nextXid && tx.nextGlobal < MAX_U64
  }

  ghost predicate DomainsOk(db: Db) { db.rows.Keys == db.wrote.Keys && db.locks.Keys <= db.rows.Keys }

  ghost predicate StampsOk(tx: Txns, clock: nat, w: map<Xid, nat>) {
    forall a | a in w :: a < tx.nextXid && w[a] < clock
  }

  predicate Earlier(w: map<Xid, nat>, a: Xid, b: Xid) { a in w && b in w && w[a] < w[b] }

  /** Nobody has written the row since. */
  ghost predicate Newest(w: map<Xid, nat>, b: Xid) { b in w && forall c | c in w :: w[c] <= w[b] }

  /** Writers of a row are totally ordered, and all but the newest are finished. */
  ghost predicate OrderOk(tx: Txns, w: map<Xid, nat>) {
    && INVALID_XID !in w
    && (forall a, b | a in w && b in w && a != b :: w[a] != w[b])
    && (forall a, b | Earlier(w, a, b) :: Quiet(tx, a))
  }

  /** An unfinished writer holds the row's lock, or inserted the row, or is a marker inherited
      behind the closed gate. */
  ghost predicate LockOk(tx: Txns, holder: Option<Xid>, serving: bool, w: map<Xid, nat>) {
    && (forall a | a in w && !Quiet(tx, a) ::
          holder == Some(a) || w.Keys == {a} || (!serving && a !in tx.running))
    && (forall a | a in w && holder.Some? && holder != Some(a) :: Quiet(tx, a))
  }

  /** The writers that are not aborted form a chain through `xmax`, which the newest writer joins
      or would join. */
  ghost predicate LinksOk(tx: Txns, w: map<Xid, nat>, vs: map<Xid, Version>) {
    forall a, b | Earlier(w, a, b) && Alive(tx, a) && Joins(tx, w, b) :: LeadsTo(tx, w, vs, a, b)
  }

  /** And nobody on it has superseded a version of an aborted transaction. */
  ghost predicate XmaxOk(tx: Txns, w: map<Xid, nat>, vs: map<Xid, Version>) {
    forall a, m | Supersedes(vs, a, m) && Joins(tx, w, m) :: Alive(tx, a) && Earlier(w, a, m)
  }

  ghost predicate ChainOk(tx: Txns, w: map<Xid, nat>, vs: map<Xid, Version>) {
    && vs.Keys <= w.Keys && (forall a | a in vs :: vs[a].xmax == INVALID_XID || vs[a].xmax in w)
    && LinksOk(tx, w, vs) && XmaxOk(tx, w, vs)
  }

  ghost predicate Joins(tx: Txns, w: map<Xid, nat>, b: Xid) { Alive(tx, b) || Newest(w, b) }

  /** The version of `a` is superseded by `b`, or earlier by a writer that is not aborted. */
  predicate LeadsTo(tx: Txns, w: map<Xid, nat>, vs: map<Xid, Version>, a: Xid, b: Xid) {
    && a in w && b in w && a in vs && vs[a].xmax in w
    && (vs[a].xmax == b || Alive(tx, vs[a].xmax)) && w[a] < w[vs[a].xmax] <= w[b]
  }

  /** `m` replaced or deleted the version of another transaction `a`. */
  predicate Supersedes(vs: map<Xid, Version>, a: Xid, m: Xid) {
    a in vs && vs[a].xmax == m && m != INVALID_XID && m != a
  }

  function Holder(db: Db, r: RowId): Option<Xid> { if r in db.locks then Some(db.locks[r]) else None }

  ghost predicate RowOk(tx: Txns, clock: nat, holder: Option<Xid>, serving: bool, w: map<Xid, nat>, vs: map<Xid, Version>) {
    StampsOk(tx, clock, w) && OrderOk(tx, w) && LockOk(tx, holder, serving, w) && ChainOk(tx, w, vs)
  }

  ghost predicate RowIn(db: Db, r: RowId)
    requires r in db.wrote && r in db.rows
  {
    RowOk(db.tx, db.clock, Holder(db, r), db.serving, db.wrote[r], db.rows[r])
  }

  /** The snapshot sees writer `a`, and its marker's decision if it has one. */
  predicate Covers(tx: Txns, rd: Reader, a: Xid) {
    !rd.snap.IsRunning(a) && (ClogGet(tx.clog, a).Prepared? ==> ClogGet(tx.clog, a).g in rd.dfloor)
  }

  /** A snapshot that sees a writer of the row covers every earlier writer that is not aborted. */
  ghost predicate ClosedOk(tx: Txns, rd: Reader, w: map<Xid, nat>) {
    forall a, b | Earlier(w, a, b) && rd.Sees(b) && Alive(tx, a) :: Covers(tx, rd, a)
  }

  /** The snapshot is not from the future, misses every running transaction, and a marker whose
      transaction it sees names a global xid below its global floor. */
  ghost predicate FloorOk(tx: Txns, rd: Reader) {
    && rd.snap.xmax <= tx.nextXid && rd.gfloor <= tx.nextGlobal && rd.dfloor <= tx.decided.Keys
    && (forall x | x in tx.running :: rd.snap.IsRunning(x))
    && (forall x | x in tx.clog && tx.clog[x].Prepared? && !rd.snap.IsRunning(x) :: tx.clog[x].g < rd.gfloor)
  }

  /** What a scan returned was written by a transaction it still sees as its own or committed. */
  ghost predicate SeenOk(tx: Txns, wrote: map<RowId, map<Xid, nat>>, rd: Reader) {
    forall r | r in rd.seen ::
      r in wrote && rd.seen[r] in wrote[r] && rd.Sees(rd.seen[r]) &&
      (rd.own == Some(rd.seen[r]) || Won(tx, rd.seen[r]))
  }

  ghost predicate ReaderOk(tx: Txns, wrote: map<RowId, map<Xid, nat>>, rd: Reader) {
    FloorOk(tx, rd) && SeenOk(tx, wrote, rd)
  }

  /** Every row the reader's statement has not rewritten is closed for it. */
  ghost predicate ReaderClosed(tx: Txns, wrote: map<RowId, map<Xid, nat>>, rd: Reader) {
    forall r | r in wrote && r !in rd.done :: ClosedOk(tx, rd, wrote[r])
  }

  /** What makes the re-check under a lock exact. */
  ghost predicate Core(db: Db) {
    && TxnsOk(db.tx) && DomainsOk(db)
    && (forall r | r in db.wrote && r in db.rows :: RowIn(db, r))
    && (forall i | i in db.readers :: ReaderOk(db.tx, db.wrote, db.readers[i]))
  }

  ghost predicate Closed(db: Db) {
    forall i | i in db.readers :: ReaderClosed(db.tx, db.wrote, db.readers[i])
  }

  ghost predicate Inv(db: Db) { Core(db) && Closed(db) }

  // ---- At most one live version ---------------------------------------------------------

  /** The status a replica reports is the outcome, once it has applied the decision. */
  lemma ResolvedStatus(tx: Txns, view: View, x: Xid)
    requires view.clog == tx.clog && Agrees(view.decided, tx.decided)
    ensures GlobalStatus(view, x) == Committed ==> Won(tx, x)
    ensures Won(tx, x) && (ClogGet(tx.clog, x).Prepared? ==>
                             !view.gsnap.IsRunning(ClogGet(tx.clog, x).g) && ClogGet(tx.clog, x).g in view.decided)
            ==> GlobalStatus(view, x) == Committed
  {}

  /** AT MOST ONE LIVE VERSION: whatever later global snapshot and however far ahead a replica
      the read uses, a snapshot sees at most one version of a row. */
  lemma AtMostOneVisible(db: Db, id: nat, r: RowId, gx: Xid, view: map<Xid, bool>, a: Xid, b: Xid)
    requires Inv(db) && id in db.readers && r !in db.readers[id].done
    requires db.readers[id].own.Some? ==> Alive(db.tx, db.readers[id].own.value)
    requires CanScan(db, id, r, gx, view, a) && CanScan(db, id, r, gx, view, b)
    ensures a == b
  {
    var rd, v, w, vs := db.readers[id], ReadView(db.tx, view, gx), db.wrote[r], db.rows[r];
    assert RowIn(db, r) && ReaderOk(db.tx, db.wrote, rd) && ReaderClosed(db.tx, db.wrote, rd);
    ResolvedStatus(db.tx, v, a);
    ResolvedStatus(db.tx, v, b);
    if a != b {
      if w[a] < w[b] {
        EarlierIsHidden(db.tx, rd, w, vs, v, a, b);
      } else {
        EarlierIsHidden(db.tx, rd, w, vs, v, b, a);
      }
    }
  }

  lemma EarlierIsHidden(tx: Txns, rd: Reader, w: map<Xid, nat>, vs: map<Xid, Version>, v: View, a: Xid, b: Xid)
    requires OrderOk(tx, w) && ChainOk(tx, w, vs) && ClosedOk(tx, rd, w) && FloorOk(tx, rd)
    requires v.clog == tx.clog && Agrees(v.decided, tx.decided) && rd.dfloor <= v.decided.Keys
    requires v.gsnap.xip == {} && rd.gfloor <= v.gsnap.xmax
    requires a in w && b in w && w[a] < w[b] && Alive(tx, a) && Alive(tx, b)
    requires CommittedVisible(v, rd.snap, rd.own, b)
    ensures !VisibleIn(vs, v, rd.snap, rd.own, a)
  {
    assert Earlier(w, a, b) && LeadsTo(tx, w, vs, a, b);
    var m := vs[a].xmax;
    if m != b {
      assert Earlier(w, m, b) && Covers(tx, rd, m);
      ResolvedStatus(tx, v, m);
    }
  }

  // ---- The re-check under the lock ------------------------------------------------------

  /** Some transaction other than `x` committed to the row and the snapshot misses it. */
  ghost predicate UnseenCommit(tx: Txns, w: map<Xid, nat>, snap: Snapshot, x: Xid) {
    exists m :: m in w && m != x && Won(tx, m) && snap.IsRunning(m)
  }

  /** `m` committed a change of what `a` had written, and the snapshot misses it. */
  predicate Changes(tx: Txns, w: map<Xid, nat>, snap: Snapshot, x: Xid, a: Xid, m: Xid) {
    Earlier(w, a, m) && Alive(tx, a) && m != x && Won(tx, m) && snap.IsRunning(m)
  }

  /** Some transaction other than `x` that the snapshot misses committed a change of the row. */
  ghost predicate UnseenChange(tx: Txns, w: map<Xid, nat>, snap: Snapshot, x: Xid) {
    exists a, m :: Changes(tx, w, snap, x, a, m)
  }

  /** The replica has the decision of `a`'s marker, if it has one. */
  predicate Applied(tx: Txns, view: map<Xid, bool>, a: Xid) {
    ClogGet(tx.clog, a).Prepared? ==> ClogGet(tx.clog, a).g in view
  }

  /** The writers the re-check takes for its own or committed. */
  predicate Shown(tx: Txns, view: map<Xid, bool>, x: Xid, a: Xid) {
    a == x || (Won(tx, a) && Applied(tx, view, a))
  }

  /** A row whose lock `x` holds: everybody else is finished. */
  ghost predicate LockedRow(tx: Txns, w: map<Xid, nat>, vs: map<Xid, Version>, x: Xid) {
    && TxnsOk(tx) && OrderOk(tx, w) && ChainOk(tx, w, vs) && Open(tx, x)
    && forall a | a in w :: a < tx.nextXid && (a != x ==> Quiet(tx, a))
  }

  /** The statement's scan returned a version of the row that it still sees. */
  ghost predicate ScannedRow(tx: Txns, w: map<Xid, nat>, rd: Reader, r: RowId, x: Xid) {
    && rd.own == Some(x) && r in rd.seen && rd.seen[r] in w
    && rd.Sees(rd.seen[r]) && (rd.seen[r] == x || Won(tx, rd.seen[r]))
  }

  lemma LockedFacts(db: Db, id: nat, r: RowId, x: Xid)
    requires Core(db) && Locked(db, id, r, x)
    ensures LockedRow(db.tx, db.wrote[r], db.rows[r], x)
    ensures ScannedRow(db.tx, db.wrote[r], db.readers[id], r, x)
  {
    assert RowIn(db, r) && ReaderOk(db.tx, db.wrote, db.readers[id]);
  }

  /** Under the lock, the current snapshot shows exactly the writers the replica reports. */
  lemma LatestShows(tx: Txns, w: map<Xid, nat>, vs: map<Xid, Version>, x: Xid, view: map<Xid, bool>, a: Xid)
    requires LockedRow(tx, w, vs, x) && Agrees(view, tx.decided) && a in w
    ensures CommittedVisible(LockView(tx, view), Current(tx), Some(x), a) <==> Shown(tx, view, x, a)
  {
    ResolvedStatus(tx, LockView(tx, view), a);
  }

  /** An older snapshot shows the same, minus what it misses. */
  lemma SnapshotShows(tx: Txns, w: map<Xid, nat>, vs: map<Xid, Version>, x: Xid, view: map<Xid, bool>, snap: Snapshot, a: Xid)
    requires LockedRow(tx, w, vs, x) && Agrees(view, tx.decided) && a in w
    ensures CommittedVisible(LockView(tx, view), snap, Some(x), a) <==>
            Shown(tx, view, x, a) && (a == x || !snap.IsRunning(a))
  {
    ResolvedStatus(tx, LockView(tx, view), a);
  }

  /** Every later writer that is not aborted is the `xmax` of a version. */
  lemma HasPredecessor(tx: Txns, w: map<Xid, nat>, vs: map<Xid, Version>, a: Xid, m: Xid) returns (p: Xid)
    requires OrderOk(tx, w) && ChainOk(tx, w, vs)
    requires Earlier(w, a, m) && Alive(tx, a) && Alive(tx, m)
    ensures p in vs && vs[p].xmax == m
    decreases w[m] - w[a]
  {
    assert LeadsTo(tx, w, vs, a, m);
    var next := vs[a].xmax;
    if next == m {
      p := a;
    } else {
      p := HasPredecessor(tx, w, vs, next, m);
    }
  }

  /** Whatever a version's `xmax` reports, if unseen, is a change of an earlier writer's version. */
  lemma StampIsChange(tx: Txns, rd: Reader, r: RowId, w: map<Xid, nat>, vs: map<Xid, Version>, x: Xid, a: Xid, m: Xid)
    returns (p: Xid)
    requires LockedRow(tx, w, vs, x) && ScannedRow(tx, w, rd, r, x)
    requires a in vs && vs[a].xmax == m && m != INVALID_XID && m != x && Won(tx, m) && rd.snap.IsRunning(m)
    ensures Changes(tx, w, rd.snap, x, p, m)
  {
    if m == a {
      p := rd.seen[r];
      assert Earlier(w, m, p) ==> LeadsTo(tx, w, vs, m, p);
    } else {
      p := a;
      assert Supersedes(vs, a, m);
    }
  }

  lemma NoticedIsChange(tx: Txns, rd: Reader, r: RowId, w: map<Xid, nat>, vs: map<Xid, Version>, x: Xid,
                        view: map<Xid, bool>) returns (a: Xid, m: Xid)
    requires LockedRow(tx, w, vs, x) && ScannedRow(tx, w, rd, r, x) && Agrees(view, tx.decided)
    requires ChangedSince(vs, LockView(tx, view), rd.snap, x)
    ensures Changes(tx, w, rd.snap, x, a, m) && Applied(tx, view, m)
  {
    var v := LockView(tx, view);
    var p :| p in vs && vs[p].xmax != INVALID_XID && vs[p].xmax != x &&
             GlobalStatus(v, vs[p].xmax) == Committed && rd.snap.IsRunning(vs[p].xmax);
    m := vs[p].xmax;
    ResolvedStatus(tx, v, m);
    a := StampIsChange(tx, rd, r, w, vs, x, p, m);
  }

  lemma ChangeIsNoticed(tx: Txns, w: map<Xid, nat>, vs: map<Xid, Version>, snap: Snapshot, x: Xid,
                        view: map<Xid, bool>, a: Xid, m: Xid)
    requires OrderOk(tx, w) && ChainOk(tx, w, vs) && Agrees(view, tx.decided)
    requires TxnsOk(tx) && Changes(tx, w, snap, x, a, m) && Applied(tx, view, m)
    ensures ChangedSince(vs, LockView(tx, view), snap, x)
  {
    var p := HasPredecessor(tx, w, vs, a, m);
    ResolvedStatus(tx, LockView(tx, view), m);
  }

  /** The changed-since test finds exactly the unseen changes whose decision is applied. */
  lemma ChangedIffApplied(tx: Txns, rd: Reader, r: RowId, w: map<Xid, nat>, vs: map<Xid, Version>, x: Xid,
                          view: map<Xid, bool>)
    requires LockedRow(tx, w, vs, x) && ScannedRow(tx, w, rd, r, x) && Agrees(view, tx.decided)
    ensures ChangedSince(vs, LockView(tx, view), rd.snap, x) <==>
            exists a, m :: Changes(tx, w, rd.snap, x, a, m) && Applied(tx, view, m)
  {
    if ChangedSince(vs, LockView(tx, view), rd.snap, x) {
      var a, m := NoticedIsChange(tx, rd, r, w, vs, x, view);
    }
    forall a, m | Changes(tx, w, rd.snap, x, a, m) && Applied(tx, view, m)
      ensures ChangedSince(vs, LockView(tx, view), rd.snap, x)
    {
      ChangeIsNoticed(tx, w, vs, rd.snap, x, view, a, m);
    }
  }

  lemma HeadUnique(tx: Txns, w: map<Xid, nat>, vs: map<Xid, Version>, a: Xid, b: Xid)
    requires OrderOk(tx, w) && ChainOk(tx, w, vs) && Head(tx, vs, a) && Head(tx, vs, b)
    ensures a == b
  {
    assert !Earlier(w, a, b) && !Earlier(w, b, a);
  }

  /** The find is exactly the head when the visible versions are exactly the heads. */
  lemma FindsHead(tx: Txns, w: map<Xid, nat>, vs: map<Xid, Version>, v: View, snap: Snapshot, x: Xid, f: Option<Xid>)
    requires OrderOk(tx, w) && ChainOk(tx, w, vs) && Finds(vs, v, snap, Some(x), f)
    requires forall a | a in vs :: VisibleIn(vs, v, snap, Some(x), a) <==> Head(tx, vs, a)
    ensures forall a: Xid :: f == Some(a) <==> Head(tx, vs, a)
  {
    forall a: Xid ensures f == Some(a) <==> Head(tx, vs, a) {
      if f.Some? && Head(tx, vs, a) { HeadUnique(tx, w, vs, a, f.value); }
    }
  }

  /** Caught up, the current snapshot sees exactly the head. */
  lemma LatestSeesHead(tx: Txns, w: map<Xid, nat>, vs: map<Xid, Version>, x: Xid, view: map<Xid, bool>, a: Xid)
    requires LockedRow(tx, w, vs, x) && Agrees(view, tx.decided) && CaughtUp(tx, w, view) && a in vs
    ensures VisibleIn(vs, LockView(tx, view), Current(tx), Some(x), a) <==> Head(tx, vs, a)
  {
    LatestShows(tx, w, vs, x, view, a);
    if vs[a].xmax != INVALID_XID { LatestShows(tx, w, vs, x, view, vs[a].xmax); }
  }

  /** With no unseen change the statement's snapshot sees exactly the head too: it can miss only
      the first writer, whose version somebody it sees has replaced. */
  lemma SnapshotSeesHead(tx: Txns, rd: Reader, r: RowId, w: map<Xid, nat>, vs: map<Xid, Version>, x: Xid,
                         view: map<Xid, bool>, a: Xid)
    requires LockedRow(tx, w, vs, x) && ScannedRow(tx, w, rd, r, x)
    requires Agrees(view, tx.decided) && CaughtUp(tx, w, view) && a in vs
    requires !UnseenChange(tx, w, rd.snap, x)
    ensures VisibleIn(vs, LockView(tx, view), rd.snap, Some(x), a) <==> Head(tx, vs, a)
  {
    var s := rd.seen[r];
    SnapshotShows(tx, w, vs, x, view, rd.snap, a);
    var m := vs[a].xmax;
    if m != INVALID_XID {
      SnapshotShows(tx, w, vs, x, view, rd.snap, m);
      if m != a && Alive(tx, m) {
        assert Supersedes(vs, a, m);
        assert !Changes(tx, w, rd.snap, x, a, m);
      }
    }
    if a != x && Won(tx, a) && rd.snap.IsRunning(a) {
      assert !Changes(tx, w, rd.snap, x, s, a);
      assert Earlier(w, a, s) && LeadsTo(tx, w, vs, a, s);
    }
  }

  /** NO LOST UPDATE: with the row's lock held and the replica caught up, READ COMMITTED
      operates on exactly the head version and skips exactly when there is none; REPEATABLE
      READ fails exactly when a transaction its snapshot misses committed a change, and
      otherwise operates on the head, which its snapshot sees. */
  lemma RecheckExact(db: Db, id: nat, r: RowId, x: Xid, rr: bool, view: map<Xid, bool>, out: Recheck)
    requires Core(db) && Locked(db, id, r, x)
    requires ReplicaFor(db.tx, db.readers[id], view) && CaughtUp(db.tx, db.wrote[r], view)
    requires EvalPlanQual(db.rows[r], LockView(db.tx, view), db.readers[id].snap, Current(db.tx), x, rr, out)
    ensures RecheckRight(db.tx, db.readers[id], db.wrote[r], db.rows[r], x, rr, out)
    ensures rr && out.Operate? ==>
              VisibleIn(db.rows[r], LockView(db.tx, view), db.readers[id].snap, Some(x), out.xmin)
  {
    LockedFacts(db, id, r, x);
    RecheckLocked(db.tx, db.readers[id], r, db.wrote[r], db.rows[r], x, rr, view, out);
  }

  /** The re-check's answer is what the row's history calls for. */
  ghost predicate RecheckRight(tx: Txns, rd: Reader, w: map<Xid, nat>, vs: map<Xid, Version>, x: Xid, rr: bool, out: Recheck) {
    && (out == SerializationFailure <==> rr && UnseenChange(tx, w, rd.snap, x))
    && (out != SerializationFailure ==> OperatesOnHead(tx, vs, out))
  }

  /** Operates on exactly the head, and skips exactly when there is none. */
  ghost predicate OperatesOnHead(tx: Txns, vs: map<Xid, Version>, out: Recheck) {
    && (forall a: Xid :: out == Operate(a) <==> Head(tx, vs, a))
    && (out == Skip <==> forall a: Xid :: !Head(tx, vs, a))
  }

  lemma RecheckLocked(tx: Txns, rd: Reader, r: RowId, w: map<Xid, nat>, vs: map<Xid, Version>, x: Xid, rr: bool,
                      view: map<Xid, bool>, out: Recheck)
    requires LockedRow(tx, w, vs, x) && ScannedRow(tx, w, rd, r, x)
    requires Agrees(view, tx.decided) && CaughtUp(tx, w, view)
    requires EvalPlanQual(vs, LockView(tx, view), rd.snap, Current(tx), x, rr, out)
    ensures RecheckRight(tx, rd, w, vs, x, rr, out)
    ensures rr && out.Operate? ==> VisibleIn(vs, LockView(tx, view), rd.snap, Some(x), out.xmin)
  {
    ChangedIffUnseen(tx, rd, r, w, vs, x, view);
    var v, changed := LockView(tx, view), UnseenChange(tx, w, rd.snap, x);
    if !(rr && changed) {
      var s := if changed then Current(tx) else rd.snap;
      var f: Option<Xid> :| Finds(vs, v, s, Some(x), f) && out == ToRecheck(f);
      forall a | a in vs ensures VisibleIn(vs, v, s, Some(x), a) <==> Head(tx, vs, a) {
        if changed { LatestSeesHead(tx, w, vs, x, view, a); } else { SnapshotSeesHead(tx, rd, r, w, vs, x, view, a); }
      }
      FindsHead(tx, w, vs, v, s, x, f);
      if f.None? {
        assert forall a: Xid :: !Head(tx, vs, a);
      } else {
        assert Head(tx, vs, f.value);
      }
    }
  }

  /** Caught up, the changed-since test is true exactly on an unseen change. */
  lemma ChangedIffUnseen(tx: Txns, rd: Reader, r: RowId, w: map<Xid, nat>, vs: map<Xid, Version>, x: Xid,
                         view: map<Xid, bool>)
    requires LockedRow(tx, w, vs, x) && ScannedRow(tx, w, rd, r, x)
    requires Agrees(view, tx.decided) && CaughtUp(tx, w, view)
    ensures ChangedSince(vs, LockView(tx, view), rd.snap, x) <==> UnseenChange(tx, w, rd.snap, x)
  {
    ChangedIffApplied(tx, rd, r, w, vs, x, view);
    forall a, m | Changes(tx, w, rd.snap, x, a, m) ensures Applied(tx, view, m) {}
  }

  /** For a reader the row is closed for, missing a commit is missing a change. */
  lemma ClosedMissesChange(tx: Txns, rd: Reader, r: RowId, w: map<Xid, nat>, vs: map<Xid, Version>, x: Xid)
    requires LockedRow(tx, w, vs, x) && ScannedRow(tx, w, rd, r, x) && ClosedOk(tx, rd, w)
    ensures UnseenChange(tx, w, rd.snap, x) <==> UnseenCommit(tx, w, rd.snap, x)
  {
    if UnseenCommit(tx, w, rd.snap, x) {
      var m :| m in w && m != x && Won(tx, m) && rd.snap.IsRunning(m);
      var s := rd.seen[r];
      assert !Earlier(w, m, s);
      assert Changes(tx, w, rd.snap, x, s, m);
    }
    if UnseenChange(tx, w, rd.snap, x) {
      var a, m :| Changes(tx, w, rd.snap, x, a, m);
    }
  }
}
