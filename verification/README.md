# Verified model of crabgresql's transaction core

crabgresql is a distributed SQL database: rows are stored as multi-version tuples in
Raft-replicated ranges, transactions that span ranges commit through a global decision on
range 0, and a range that changes leader recovers before it serves again. This project models
that core and a few self-contained algorithms beside it, and proves what they promise.

Three kinds of model are used, following the code.

- Protocols are state machines over all interleavings: versions, clog, locks, gate and decisions
  (`Mvcc`, `MvccRuns`), the lock manager with its parked waiters (`LockRuns`), leaders, sweeps,
  watermark and the sessions that outlive a term (`Recovery`, `RecoveryRuns`), allocation and leader
  change (`Ids`). Each has an invariant, and where the code lets a step break it, a theorem says
  exactly which steps and which runs keep it.
- Objects updated in place are classes whose methods are proved against value-level
  specifications: the lock manager, both state-machine stores, both log stores, the recovery gate,
  the session registry, the xid and rowid allocators.
- Loops are methods with invariants against declarative definitions: visibility scans, the
  statement loop of UPDATE and DELETE, the recovery scan, `LIKE`, bound extraction, joins,
  grouping and the schema codec.

A specification function is itself tied to its inputs: what it selects is stated as an increasing
list of positions with nothing missing (`Base.Listing`: the ops of a key, the rows of a group, the
values of an aggregate, the pairs of a join), and the contracts of the main operations say on the
inputs when they succeed, with which error they fail and what they leave unchanged.

Where a property fails in the code as written, a lemma gives the exact condition, and a concrete
input, or a run from the initial state, shows the failure:

- a run keeps the range's invariant exactly when every write builds on the head version and comes
  before any reader sees its transaction while missing another writer of the row, no transaction
  that outlived a change of leader returns to a row overwritten since, and every gate opens over rows
  whose unfinished writers hold their locks or wrote alone (`MvccRuns.RunIff`; from what each step can
  check, `PromptRun` and `MvccReplica.SuitedRun`). A participant that writes after its marker, a
  session that commits after the range changed leader twice, and a gate opened over a marker in doubt
  each show two live versions of a row at the end of a run (`MvccWitness.LateWrite`,
  `SurvivingSession`, `EarlyGate`);
- the re-check under a lock is right exactly when the range-0 replica has the decisions that matter
  for the row (`MvccReplica.RecheckAnyReplica`); runs end in a lost update otherwise
  (`MvccWitness.LaggingReplica`, `GreaterXid`);
- a read whose global snapshot is older than its local one can see two versions of a row: exactly
  when it misses a writer between two it sees (`MvccLimits.TwoLiveIffGap`,
  `MvccWitness.EarlyGlobalSnapshot`);
- a reused snapshot changes its mind about a marker exactly when the marker was undecided and is
  committed later (`MvccLimits.RepeatableIff`);
- the watermarks of a run stay sound exactly when each is recorded with no undecided marker below it
  since its scan, and each marker is decided, dropped or past every watermark
  (`RecoveryRuns.RunIff`, `AdvanceExact`, `MarkExact`). The proposal does not compare terms as the gate
  does, so a sweep that outlives its term moves a watermark past a marker in doubt and the next sweep
  opens the gate (`RecoveryWitness.StaleSweep`); a session that outlives its term records a marker
  below one (`StaleSession`);
- a new leader's counter lies past every clog record exactly when a batch it has applied, or its own
  memory, carries a counter past each (`RecoveryRuns.ReseedExact`, `RunCounted`, `CoveredIff`). COMMIT
  and the write batches carry it; an abort and the marker of a joining transaction do not. A
  transaction that only locked rows before it joined leaves such a record, its xid is handed out
  again below the watermark, and a gate opens over its marker (`RecoveryWitness.ReissuedXid`);
- for the same reason the leader's counter stays above every committed xid exactly when every rise finds
  it there, and then committed xids are distinct exactly when every xid from before the leader's rise
  had no record when it committed (`Ids.NoXidReuse`, `UncountedReissued`, `IdReused`);
- the sweep frees a lock on any answer, so freed locks are safe exactly when every answer was a
  decision (`TwoPhase.FreedExact`);
- recovery re-locking keeps exclusive locks exclusive exactly on free or own rows
  (`LockRuns.RelockExact`); the code's comment says it overwrites holders, the code adds one;
- one durable apply call equals op-by-op apply exactly under a condition on each counter and clog
  key deleted and put again (`DurableApply.BatchExact`, `RevivedSequence`);
- the log cache is right exactly under conditions on the greatest appended and the purged id
  (`LogStore.AppendExact`, `PurgeExact`);
- the global-xid counter is a plain key although its module says it is max-merged: reseeding is
  safe exactly when counter writes apply in build order (`Ids.GlobalReseedExact`,
  `GlobalIdReissued`), and a rowid reseed exactly when the earlier counter write is applied
  (`Ids.AllocAcrossReseed`);
- a pushed-down bound loses rows exactly when an upper offset limit is the largest 64-bit value
  while a partition is named (`Pushdown.PushdownExact`).

Assumptions taken from the code around the core: Raft gives one committed log with non-decreasing
terms, one leader per term and a restarted node leads only in a new term; each replica applies a
prefix; the last write to a key in a batch wins; a finishing transaction records its outcome,
leaves the running set, then frees its locks; a reader's local and global snapshots form one step
(see `EarlyGlobalSnapshot` for what happens otherwise); `Mvcc` hands out every xid once (see
`UncountedReissued` and `IdReused`). How far a replica has applied, when a session that outlives a
change of leader commits, stages or writes, which batches carry the counter, the term a sweep
finishes in and what a gate opens over are not assumed: they are conditions of the theorems, with
the runs that fail them.

Integers are unbounded where the code uses 64-bit counters that are never exhausted; the wrap of
`+ 1` in the bound extraction and the 64-bit range of `sum` are modelled.

## Model

| member | source | states |
|---|---|---|
| Visibility.FindVisibleOne | crates/executor/src/exec.rs:543-580 | returns the greatest visible version of a row whatever the scan order, none when none is visible |
| Visibility.RecheckRow | crates/executor/src/exec.rs:587-648 | the re-check fails under REPEATABLE READ when a transaction the snapshot misses committed a change, otherwise finds the visible version under the fresh or the old snapshot |
| Visibility.ScanRow | crates/executor/src/exec.rs:745-762 | one row's stretch of the scan, and its greatest visible entry |
| Visibility.ScanLive | crates/executor/src/exec.rs:729-774 | one output row per row with a visible version, in rowid order, carrying the rowid, xid and tuple of its greatest visible version; none missing |
| Mvcc.ResolvedStatus | crates/executor/src/exec.rs:516-532 | a marker resolves to committed only if the transaction won, and always once the replica has its decision |
| Mvcc.AtMostOneVisible | crates/executor/src/exec.rs:729-774 | under the invariant no snapshot, replica or later global snapshot sees two versions of a row |
| Mvcc.EarlierIsHidden | crates/mvcc/src/visibility.rs:34-70 | a visible writer hides every earlier version, by way of its successor in the chain |
| Mvcc.HasPredecessor | crates/executor/src/exec.rs:401-421 | every later writer that is not aborted is recorded as the successor of some version |
| Mvcc.FindsHead | crates/executor/src/exec.rs:543-580 | a snapshot that sees exactly the writers not aborted finds exactly the head version |
| Mvcc.ChangedIffApplied | crates/executor/src/exec.rs:627-641 | on any replica the changed-since test finds exactly the unseen changes whose decision is applied |
| Mvcc.SnapshotSeesHead | crates/executor/src/exec.rs:642-648 | with no unseen change the statement's snapshot sees exactly the head, even when it misses the row's first writer |
| Mvcc.ChangedIffUnseen | crates/executor/src/exec.rs:627-641 | caught up, the changed-since test is true exactly when a transaction the snapshot misses committed a change |
| Mvcc.RecheckExact | crates/executor/src/exec.rs:587-648 | for registered writers and marked participants alike, READ COMMITTED operates on exactly the head and skips exactly when there is none; REPEATABLE READ fails exactly on an unseen committed change, else operates on the head, which it sees |
| Mvcc.ClosedMissesChange | crates/executor/src/exec.rs:627-641 | for a snapshot the row is closed for, missing a commit is missing a change |
| MvccRuns.StepTxns | crates/executor/src/procarray.rs:59-121 | begin, record, prepare, deregister and decide keep the invariant of every row and reader |
| MvccRuns.StepLock | crates/executor/src/exec.rs:368-375 | whoever is granted a scanned row's lock finds every other writer finished, and the invariant holds |
| MvccRuns.StepRelease | crates/executor/src/session.rs:1090-1116 | freeing the locks of a settled transaction keeps the invariant |
| MvccRuns.StepFailover | crates/executor/src/lib.rs:363-374 | losing running set, locks and readers keeps the invariant behind a closed gate, whatever was open; what a returning leader still holds comes back by `StepRejoin` |
| MvccRuns.StepOpenGate | crates/cluster/src/server_node.rs:792-819 | opening the gate keeps the core invariant exactly when every unfinished writer of a row holds its lock or wrote it alone |
| MvccRuns.SettledIsGuarded | crates/cluster/src/server_node.rs:792-819 | a gate that opens with no marker in doubt meets that condition |
| MvccRuns.StepRejoin | crates/executor/src/procarray.rs:74-88 | the return of a transaction its leader still holds keeps the core invariant exactly when nobody has written since a row that it wrote |
| MvccRuns.StepSnapshot | crates/executor/src/procarray.rs:109-115 | a fresh snapshot sees every earlier unaborted writer of any writer it sees |
| MvccRuns.StepScan | crates/executor/src/exec.rs:729-774 | what a scan returns was written by its own or a committed transaction |
| MvccRuns.StepInsert | crates/executor/src/exec.rs:294-341 | an insert by any unfinished transaction starts a row's chain |
| MvccRuns.StepUpdate | crates/executor/src/exec.rs:396-421 | an update keeps the core invariant exactly when the re-checked version is the head, and the closure of every snapshot exactly when it is timely |
| MvccRuns.StepDelete | crates/executor/src/exec.rs:468-485 | the same for a delete |
| MvccRuns.HeadIsLast | crates/executor/src/exec.rs:587-648 | the head belongs to the newest writer that is not aborted, so a transaction never adds a second version over another's head |
| MvccRuns.StepRewrite | crates/executor/src/exec.rs:377-421 | a write keeps the core invariant exactly when the version its re-check chose is the head |
| MvccRuns.StepTimely | crates/executor/src/session.rs:880-906 | every snapshot stays closed under a write of the head exactly when every reader that sees the writer covers the row's other writers |
| MvccRuns.RegisteredIsTimely | crates/executor/src/exec.rs:377-421 | a registered transaction that writes with a caught-up replica always writes the head, and in time |
| MvccRuns.UpdatedVersions | crates/executor/src/exec.rs:401-421 | after an update the head is the writer's version with the new tuple, and no other tuple changed |
| MvccRuns.DeletedVersions | crates/executor/src/exec.rs:468-485 | after a delete of the head the row has none, and no tuple changed |
| MvccRuns.StoresExactly | crates/executor/src/exec.rs:294-491 | an insert stores its tuple, an update its tuple over its own version or beside the one it marks, a delete its mark; no other version and no other row changes, and no other step changes a row |
| MvccRuns.HoldsExactly | crates/executor/src/procarray.rs:59-121 | locks last until their transaction releases everything or the leader loses its memory, and a snapshot counts as running exactly what is registered or not yet begun |
| MvccRuns.OutcomeRecorded | crates/executor/src/exec.rs:503-532 | a record makes effects permanent exactly when it says commit; a marker leaves its transaction open until its global decision, and then as decided |
| MvccRuns.WriteIsIsolated | crates/mvcc/src/visibility.rs:34-70 | to a reader that does not see the writer, running or aborted, a rewritten row looks as before |
| MvccRuns.StepIff | crates/executor/src/exec.rs:278-494 | every step keeps the invariant, or its core alone, exactly when its condition is met |
| MvccRuns.RunIff | crates/executor/src/exec.rs:278-494 | of all legal runs exactly those whose every step meets its condition keep the invariant throughout, and likewise its core |
| MvccRuns.PromptRun | crates/executor/src/session.rs:908-917 | runs whose writes read caught-up replicas, whose returns are unfollowed and whose gates open over guarded rows meet every condition; with registered or timely writers, those of the full invariant |
| MvccRuns.AtMostOneLive | crates/executor/src/exec.rs:543-580 | in every run of single-range and distributed transactions, failovers, recoveries and surviving sessions whose steps meet their conditions a snapshot sees at most one version of a row |
| MvccRuns.NoLostUpdate | crates/executor/src/exec.rs:587-648 | in every run whose writes build on the head, however late a participant writes, the re-check under the lock is exact, its answer visible under REPEATABLE READ, and the head unique |
| MvccRuns.NoLostUpdateChecked | crates/executor/src/exec.rs:587-648 | the re-check is exact in every run whose steps make those checks, with no assumption about what earlier writes found |
| MvccRuns.AtMostOneLiveChecked | crates/executor/src/exec.rs:543-580 | at most one live version in every run whose steps make those checks |
| MvccReplica.RecheckIff | crates/executor/src/exec.rs:587-648 | the re-check's answer is right exactly when the replica has the head's decision and those of the successors of greater xids, or under REPEATABLE READ that of one unseen change |
| MvccReplica.RecheckAnyReplica | crates/executor/src/session.rs:908-917 | the same in every state that keeps the invariant, for every replica the reader may use |
| MvccReplica.WriteOnHeadIff | crates/executor/src/exec.rs:377-421 | a write rewrites the head exactly when the replica its re-check read suffices |
| MvccReplica.SuitedRun | crates/executor/src/session.rs:908-917 | a run keeps the invariant throughout exactly when every write reads a replica that suffices and comes in time, every return is unfollowed and every gate opens over guarded rows |
| MvccWitness.LaggingReplica | crates/executor/src/session.rs:908-917 | a run whose every step meets its condition ends with a re-check that picks a replaced version on a lagging replica |
| MvccWitness.GreaterXid | crates/executor/src/exec.rs:543-580 | a run whose every step meets its condition ends with a re-check that sees the head and still picks a replaced version of a greater xid |
| MvccWitness.LateWrite | crates/executor/src/session.rs:880-906 | a run in which a participant writes after leaving the running set ends with a snapshot that sees two versions |
| MvccWitness.SurvivingSession | crates/cluster/src/range/router.rs:357-380 | a run in which a session commits after its range changed leader twice ends with a fresh snapshot that sees two versions |
| MvccWitness.EarlyGate | crates/cluster/src/server_node.rs:792-819 | a run in which the gate opens over a marker in doubt that holds no lock ends with a fresh snapshot that sees two versions |
| MvccLimits.TwoLiveIffGap | crates/executor/src/exec.rs:516-580 | two versions are visible exactly when an unaborted writer is hidden between a visible one and a live version |
| MvccWitness.EarlyGlobalSnapshot | crates/executor/src/session.rs:757-762 | a run whose every step meets its condition ends with the autocommit order of snapshots showing two versions |
| MvccLimits.RepeatableIff | crates/executor/src/session.rs:136-147 | visibility under a reused snapshot changes exactly for a covered marker undecided before and committed after |
| MvccLimits.WriteHappens | crates/executor/src/exec.rs:377-400 | the guards of the write step can be met under both isolation levels |
| MvccLimits.FinishedIsFixed | crates/executor/src/procarray.rs:117-121 | a transaction a snapshot does not list as running keeps its clog record through every step, returning transactions included |
| WritePath.RowPutsExact | crates/executor/src/exec.rs:401-421 | the puts of one rewritten row make exactly the write step's versions, and touch no other row |
| WritePath.RunWrite | crates/executor/src/exec.rs:342-491 | succeeds exactly when every matching candidate gets its lock, passes its re-check and evaluates; fails with a deadlock, a serialization failure or an expression error exactly when the first candidate that does not go on ends so; on success the batch marks or supersedes the re-checked version of exactly the rows matching both as scanned and as re-checked, leaves every other row, and counts them |
| Locks.CheckCycle | crates/executor/src/lockmgr.rs:238-253 | ends on every graph and answers deadlock exactly when the requester is reachable from the holder |
| Locks.NewEdgeAcyclic | crates/executor/src/lockmgr.rs:132-143 | an edge the check lets through keeps the wait-for graph acyclic, replaced edge included |
| Locks.ChainEnds | crates/executor/src/lockmgr.rs:44-51 | every wait chain of an acyclic graph ends at a transaction that waits for nobody |
| Locks.RowLockManager.TryAcquire | crates/executor/src/lockmgr.rs:193-234 | grants exactly when nobody else holds the row, both modes are shared, or the holder asks for no more than it has; a grant adds one holder and is shared exactly when the request and the row were; otherwise nothing changes and another holder is named |
| Locks.RowLockManager.AcquireOnce | crates/executor/src/lockmgr.rs:117-152 | one guarded pass: granted exactly under that condition; otherwise a deadlock with a real wait chain, or parked with one more waiter registered under a holder |
| Locks.RowLockManager.ReleaseAll | crates/executor/src/lockmgr.rs:155-171 | afterwards the transaction holds nothing, waits for nobody and has no waiters; a row stays locked, in its mode, exactly while somebody else holds it; everybody else waits as before, and exactly its registered waiters are handed over |
| Locks.RowLockManager.ReacquireExclusive | crates/executor/src/lockmgr.rs:95-109 | adds the transaction to the row's holders, exclusively, and replaces nobody |
| LockRuns.GrantGives | crates/executor/src/lockmgr.rs:193-234 | a grant adds the requester to the holders, alone when exclusive; a shared grant keeps the mode of the row, shared on a free one; no other row changes |
| LockRuns.BlockedExactly | crates/executor/src/lockmgr.rs:193-234 | a request waits exactly when another transaction holds the row and one of the two modes is exclusive |
| LockRuns.SharedCoexist | crates/executor/src/lockmgr.rs:200-228 | a shared request on a free or shared row is granted and leaves room for the next one |
| LockRuns.GrantKeepsWaiter | crates/executor/src/lockmgr.rs:193-234 | a grant leaves every registered waiter blocked by the same holder |
| LockRuns.ReleaseKeepsInv | crates/executor/src/lockmgr.rs:155-171 | a release notifies every waiter whose holder goes away |
| LockRuns.RelockExact | crates/executor/src/lockmgr.rs:84-109 | a re-lock keeps exclusive locks single-holder exactly on free or own rows |
| LockRuns.RunKeepsInv | crates/executor/src/lockmgr.rs:117-171 | every run of acquires, wake-ups, cancellations, releases and re-locks keeps the invariant |
| LockRuns.AlwaysAcyclic | crates/executor/src/lockmgr.rs:44-51 | in every run the wait-for graph is acyclic, every lock has a holder and an exclusive lock exactly one |
| LockRuns.Progress | crates/executor/src/lockmgr.rs:111-171 | in every run a parked waiter nobody notified is registered under a current holder that blocks it, and its chain ends at a transaction that is not parked |
| Recovery.Bound | crates/executor/src/lib.rs:342-347 | one past the greatest local xid with a clog record, and tight |
| Recovery.Carried | crates/cluster/src/store.rs:40-52 | the greatest counter carried by the log's batches, and tight |
| RecoveryScan.InDoubtGlobalsFrom | crates/executor/src/lib.rs:318-349 | returns exactly the undecided globals from the watermark on, and a new watermark that never passes an undecided marker and is as high as that allows |
| RecoveryScan.InDoubtMeans | crates/executor/src/lib.rs:318-349 | a global is in doubt exactly when it has no decision and some local entry from the watermark on marks it |
| RecoveryScan.StagedLocalFor | crates/executor/src/lib.rs:455-471 | the first marker of a global at or past the watermark, none only when there is none |
| RecoveryScan.BoundedScanComplete | crates/executor/src/lib.rs:305-349 | with a sound watermark the bounded scan equals the full scan, and a lagging replica only adds globals |
| RecoveryScan.StagedIsFound | crates/executor/src/lib.rs:443-471 | the marker of an undecided global lies at or past a sound watermark |
| RecoveryScan.ScanWatermarkSound | crates/executor/src/lib.rs:305-349 | the scan's new watermark is sound for the clog it saw, whatever replica it read |
| RecoveryScan.ReacquireInDoubtLocks | crates/executor/src/lib.rs:406-430 | on any lock table: every in-doubt creator of a version holds its row exclusively, nobody loses a lock, nobody else gains one, and every other row, rows only deleted included, is as it was |
| RecoveryScan.HeldAlone | crates/executor/src/lib.rs:406-430 | a claimed row is held by one in-doubt transaction alone exactly when it is the only claimant and nobody else held the row |
| RecoveryRuns.TakeCounted | crates/executor/src/procarray.rs:59-72 | with the counter past the records, an xid taken through the open gate lies past every watermark so far |
| RecoveryRuns.StepLinearize | crates/cluster/src/server_node.rs:725-738 | waiting for the term's blank entry seals off every earlier term |
| RecoveryRuns.ReseedExact | crates/executor/src/procarray.rs:74-88 | a reseed leaves the counter past every record exactly when the counter in memory or one carried by the applied prefix is |
| RecoveryRuns.StepRescan | crates/cluster/src/server_node.rs:804-810 | the new watermark passes no more than the clog records the scan saw |
| RecoveryRuns.RescanIsClean | crates/cluster/src/server_node.rs:804-810 | an empty re-scan on a lagging replica from a sound watermark means every marker of earlier terms is decided |
| RecoveryRuns.StepAdvance | crates/cluster/src/server_node.rs:811-813 | recording a watermark keeps the invariant in whatever term the sweep finishes |
| RecoveryRuns.RunKeepsInv | crates/cluster/src/server_node.rs:700-840 | every run of elections, deposals, crashes, takes, records with and without the counter, stale sessions, failed and stale sweeps keeps the structural invariant |
| RecoveryRuns.SeedIff | crates/executor/src/procarray.rs:74-98 | every step keeps the counters past the records exactly when, if it is a reseed, its condition is met |
| RecoveryRuns.RunCounted | crates/executor/src/procarray.rs:74-98 | of all runs exactly those whose every reseed meets its condition keep seeded counters past the records and fresh xids past the watermarks throughout |
| RecoveryRuns.CoveredIff | crates/executor/src/session.rs:1077-1088 | every prefix carries a counter past each of its records exactly when each record carries one or follows one past its xid |
| RecoveryRuns.CoveredReseeds | crates/executor/src/procarray.rs:74-88 | on such a log every reseed meets its condition |
| RecoveryRuns.RunIff | crates/cluster/src/server_node.rs:691-840 | of all runs exactly those whose every step meets its condition keep every watermark sound in every state |
| RecoveryRuns.InputsSuffice | crates/cluster/src/server_node.rs:691-840 | runs whose records are so covered, whose undecided markers are from fresh xids and whose watermarks come from sweeps in their own term meet every condition |
| RecoveryRuns.SettleBeforeServe | crates/cluster/src/server_node.rs:691-840 | in every run whose steps meet their conditions a serving node's range has a decision for every marker of an earlier term |
| RecoveryRuns.WatermarkHolds | crates/executor/src/lib.rs:474-499 | in every such run no marker in doubt lies below any recorded watermark |
| RecoveryRuns.RunScanComplete | crates/executor/src/lib.rs:318-349 | in every such run the bounded scan of any applied prefix finds exactly the undecided globals, and any undecided marker |
| RecoveryRuns.OpensOwnTerm | crates/cluster/src/recovery_gate.rs:63-85 | a gate opens only by a sweep begun in the term it opens |
| RecoveryRuns.MarkExact | crates/executor/src/session.rs:880-902 | a record keeps the watermarks sound exactly when it is no marker, its xid has an outcome, its global is decided, or it is below no watermark |
| RecoveryRuns.FreshIsPast | crates/executor/src/session.rs:895-902 | with the counter past the records, a marker from an xid taken in this term through the open gate lies past every recorded watermark |
| RecoveryRuns.AdvanceExact | crates/executor/src/lib.rs:489-499 | in any reachable sound state recording a clean sweep's watermark is sound exactly when no marker in force below it, recorded past the scan, is in doubt |
| RecoveryRuns.OwnSweepMissesNothing | crates/cluster/src/server_node.rs:811-813 | a sweep still in its own term, whose node recorded no marker since the scan, has missed no marker, so it meets the condition |
| RecoveryWitness.StaleSweep | crates/cluster/src/server_node.rs:804-819 | a run in which a sweep outlives its term ends with a gate open over a marker in doubt |
| RecoveryWitness.StaleSession | crates/cluster/src/range/router.rs:440-455 | a run in which a session outlives its term ends with a marker below a watermark |
| RecoveryWitness.ReissuedXid | crates/executor/src/session.rs:1077-1088 | a run in which a marker recorded without the counter lets the next leader hand out its xid again, below the watermark, ends with a gate open over a marker in doubt |
| RecoveryRuns.MarkerIs | crates/cluster/src/store.rs:53-63 | a marker is in force on the log exactly when it is what the clog says of its xid |
| RecoveryRuns.ScanAgrees | crates/executor/src/lib.rs:318-349 | the re-scan of the state machine is the clog scan over the applied prefix, replaced markers and outcomes written once included, with the same new watermark |
| TwoPhase.RecoveryGate.RegisterRange | crates/cluster/src/recovery_gate.rs:43-53 | idempotent, and a new range is closed in every real term |
| TwoPhase.RecoveryGate.MarkServed | crates/cluster/src/recovery_gate.rs:79-85 | the gate then admits exactly the leader in that term; unregistered ranges are untouched |
| TwoPhase.TxnService.Stage | crates/cluster/src/twopc.rs:460-516 | a session is joined exactly on a hosted, serving range for one statement with no marker of a lost session, its joining time set once; the statement runs exactly when that session begins and joins; the reply of every refusing branch |
| TwoPhase.Wire | crates/cluster/src/twopc.rs:532-542 | a participant's serialization failure or deadlock is reported as retryable, a lost leader as such, anything else as an error |
| TwoPhase.TxnService.SweepStale | crates/cluster/src/twopc.rs:413-428 | a session ends exactly when it is stale and its transaction was answered with a decision, once, committed or aborted as answered; every other one stays held as it was |
| TwoPhase.TxnService.ResolveAndReleaseForRange | crates/cluster/src/twopc.rs:379-387 | the same for the sessions of one range |
| TwoPhase.RestageFinds | crates/cluster/src/twopc.rs:475-494 | a retried stage of an undecided transaction finds its marker, runs nothing and holds nothing |
| TwoPhase.FreedExact | crates/cluster/src/server_node.rs:762-791 | the freed locks belong to decided transactions exactly when every answer was a decision |
| TwoPhase.FreedInDoubt | crates/cluster/src/server_node.rs:762-791 | an answer that is no decision frees the lock of a transaction in doubt |
| Decision.StatusRoundTrip | crates/mvcc/src/clog.rs:31-74 | decoding an encoded status gives it back; the byte form; terminal bytes are exactly Committed and Aborted |
| Decision.CommitGlobalDecision | crates/executor/src/lib.rs:283-303 | an earlier decision stands, otherwise the proposal becomes the decision, and no other transaction's record changes |
| Decision.DecidedByFirst | crates/cluster/src/store.rs:53-63 | the recorded decision is the first terminal put of the log |
| Decision.Agreement | crates/executor/src/lib.rs:283-303 | every racing caller is told the same terminal status, that of the first proposal applied |
| Decision.Stable | crates/cluster/src/store.rs:53-63 | a terminal status in a log prefix is the status in every longer one |
| Decision.MarkersAgree | crates/executor/src/exec.rs:503-532 | two ranges' markers of one transaction resolve differently exactly when the snapshot covers it and the commit lies between what their replicas applied |
| BigEndian.ValueOfEncode | crates/cluster/src/store.rs:92-102 | decoding a fixed-width big-endian number gives it back |
| BigEndian.OrderIsNumeric | crates/cluster/src/durable.rs:113-119 | equal-width big-endian strings sort as their numbers |
| Apply.KeyClasses | crates/cluster/src/store.rs:73-90 | counter and clog keys are disjoint, and the global-xid counter is neither |
| Apply.FoldAt | crates/cluster/src/store.rs:40-71 | what a list of ops leaves at a key depends only on the puts since its last delete |
| Apply.TailPositions | crates/cluster/src/store.rs:40-71 | those puts are the ops on the key since its last delete, in order, none missed |
| Apply.PutsMeans | crates/cluster/src/store.rs:40-71 | a plain key keeps the last value; a counter the greatest number put or started from, in eight bytes; a clog entry the first terminal value, with none the last |
| Apply.Replay | crates/cluster/src/durable.rs:424-431 | re-applying any applied suffix changes nothing, deletes included |
| Apply.Monotone | crates/cluster/src/store.rs:40-71 | without a delete a counter never goes down, reaches every put, and a decision never changes |
| DurableApply.StateMachine.Apply | crates/cluster/src/store.rs:223-247 | the store is the fold of exactly the ops of the normal entries, in order; the last entry is applied, and the membership is that of the last membership entry, at its id |
| DurableApply.DurableStateMachine.Apply | crates/cluster/src/durable.rs:558-648 | the committed batch of exactly those ops, equal to the fold exactly under the key conditions; the same metadata, persisted with the data |
| DurableApply.DurableStateMachine.InstallSnapshot | crates/cluster/src/durable.rs:667-716 | a snapshot replaces the whole store and its metadata |
| DurableApply.SnapshotRestores | crates/cluster/src/durable.rs:667-716 | installing the listed contents of a store reproduces it |
| DurableApply.CounterStaged | crates/cluster/src/durable.rs:587-602 | a staged counter is the maximum of the durable value and every put of the call |
| DurableApply.ClogStaged | crates/cluster/src/durable.rs:603-619 | a staged clog key takes nothing once a terminal value was seen, even if deleted since |
| DurableApply.KeyExact | crates/cluster/src/durable.rs:587-622 | batched and op-by-op apply agree on a key exactly under its condition |
| DurableApply.BatchExact | crates/cluster/src/durable.rs:558-648 | one batched call equals the fold exactly when every key meets its condition |
| DurableApply.AnySplit | crates/cluster/src/durable.rs:558-648 | however the log is cut into calls the store is the fold of all ops, when no call revives a deleted counter or clog key |
| DurableApply.AnyEntrySplit | crates/cluster/src/durable.rs:558-648 | however the entries are cut into apply calls, store and metadata are those of the in-memory store fed the same log in one call, when no call revives a deleted counter or clog key |
| DurableApply.OpsListed | crates/cluster/src/store.rs:234-239 | the ops applied are those of the normal entries, each after all the ops of earlier entries, and no others |
| DurableApply.AdvanceMeans | crates/cluster/src/store.rs:223-247 | the applied id is the last entry's; the membership is the last recorded one with its id, else unchanged |
| DurableApply.RevivedSequence | crates/catalog/src/lib.rs:170-184 | a sequence dropped and put again in one call keeps the old value in the batch and the new one op by op |
| LogStore.KeyRoundTrip | crates/cluster/src/durable.rs:113-126 | the index decoder inverts the key encoder and accepts nothing else |
| LogStore.KeyOrder | crates/cluster/src/durable.rs:113-119 | byte order of log keys is numeric order of indexes |
| LogStore.MemLogStore.LastLogId | crates/cluster/src/store.rs:339-348 | the id of the highest entry, else the purged id |
| LogStore.MemLogStore.Append | crates/cluster/src/store.rs:377-394 | the last entry given for an index stands at it, and every other index keeps what it had |
| LogStore.DurableLogStore.constructor | crates/cluster/src/durable.rs:168-181 | reopening rebuilds a cache equal to what the log implies |
| LogStore.DurableLogStore.HighestLogId | crates/cluster/src/durable.rs:229-241 | the entry with the last key in byte order |
| LogStore.DurableLogStore.Append | crates/cluster/src/durable.rs:305-333 | stores the entries, moves the cached id to the greatest new index when that is past it, and the cache stays right exactly under the append condition |
| LogStore.DurableLogStore.Truncate | crates/cluster/src/durable.rs:336-360 | keeps exactly the entries below the index, unchanged, and refines the in-memory truncation, cache included |
| LogStore.DurableLogStore.Purge | crates/cluster/src/durable.rs:363-397 | keeps exactly the entries past the index, unchanged, and refines the in-memory purge exactly under the purge condition |
| LogStore.AppendExact | crates/cluster/src/durable.rs:314-327 | the cached last id is right after an append exactly when the greatest new index is past it, below it in a non-empty log, or rewrites it |
| LogStore.PurgeExact | crates/cluster/src/durable.rs:387-394 | the same condition for a purge |
| LogStore.Mirror | crates/cluster/src/durable.rs:305-397 | driven through any contract-keeping sequence, reopenings included, both stores stay in step |
| Ids.ProcArray.BeginWrite | crates/executor/src/procarray.rs:59-72 | hands out a new xid and, in durable mode, moves the stored counter first |
| Ids.ProcArray.TakeSnapshot | crates/executor/src/procarray.rs:109-115 | counts as running exactly the registered and the future xids |
| Ids.IssueXids | crates/executor/src/procarray.rs:33-72 | durable-mode xids are 1, 2, 3 and so on over every run with restarts |
| Ids.SequenceManager.Alloc | crates/executor/src/seq.rs:37-64 | reserves a block at the counter and moves the counter past it, on disk first in durable mode |
| Ids.IssueRowids | crates/executor/src/seq.rs:30-64 | durable-mode rowid blocks of a table never overlap over every run with restarts |
| Ids.AllocAcrossReseed | crates/executor/src/seq.rs:66-70 | two allocations on either side of a replicated reseed are disjoint exactly when the first one's counter write is applied |
| Ids.AppliedAbove | crates/cluster/src/store.rs:40-52 | in any commit order the applied counter is at least every counter a batch carries |
| Ids.AppliedPastIff | crates/cluster/src/store.rs:40-52 | the applied counter lies above some ids exactly when a batch carries a counter that does |
| Ids.EmptyRiseIff | crates/executor/src/procarray.rs:74-88 | a restarted node rises with its counter above every committed id exactly when each has a carried counter past it |
| Ids.CoveredRises | crates/executor/src/procarray.rs:74-98 | when each batch carries the counter or follows one past its ids, every rise does |
| Ids.RunIff | crates/executor/src/procarray.rs:74-98 | in every run, for xids and rowids alike, committed ids are distinct exactly when each was unused when it committed |
| Ids.NoXidReuse | crates/executor/src/procarray.rs:74-98 | over every run of allocations, commits in any order with or without the counter, leader changes and crashes, with surviving sessions: the leader's counter stays above every committed xid exactly when every rise finds it there, and then committed xids are distinct exactly when each one from before the leader's rise was unused when it committed |
| Ids.NoRowidOverlap | crates/executor/src/seq.rs:37-70 | committed rowids of a table are disjoint exactly when every commit is of unused ones, and they are unused whenever leaders commit only what they took since they rose, although a reseed drops the counter in memory |
| Ids.IdReused | crates/executor/src/procarray.rs:74-98 | a run with two leader changes in which a surviving session commits an id another leader has committed |
| Ids.UncountedReissued | crates/executor/src/session.rs:449-452 | a run in which an xid recorded without the counter is taken again by the next leader since its rise, and committed |
| Ids.GlobalReseedExact | crates/executor/src/gtm.rs:67-87 | a reseeded global counter is safe at every prefix exactly when no counter write is at or below an earlier xid |
| Ids.GlobalIdReissued | crates/executor/src/lib.rs:260-270 | two allocations committing in the opposite order make the later global xid come out again |
| Like.StarSkips | crates/executor/src/eval.rs:240-244 | a leading percent sign matches exactly when the rest matches some suffix |
| Like.NewStar | crates/executor/src/eval.rs:267-272 | noting a later percent sign loses no match an earlier one could still reach |
| Like.Backtrack | crates/executor/src/eval.rs:287-295 | resuming the last percent sign one character on keeps the answer |
| Like.Iterate | crates/executor/src/eval.rs:254-296 | one iteration decides, or moves the search on without changing its answer |
| Like.MatchEnd | crates/executor/src/eval.rs:297-311 | with the subject consumed the answer is the meaning of the rest of the pattern |
| Like.LikeMatch | crates/executor/src/eval.rs:245-311 | for every subject and pattern, dangling escapes included, the declarative meaning, in fewer steps than the product of the lengths plus one |
| Like.FoldIs | crates/executor/src/eval.rs:246-247 | folding identifies exactly the characters that differ in ASCII case, and under LIKE none |
| Like.CaseBlind | crates/executor/src/eval.rs:242-247 | under ILIKE changing the case of the subject or of the pattern changes no answer |
| Like.LiteralMatches | crates/executor/src/eval.rs:278-284 | a pattern without special characters matches exactly its own text, up to case under ILIKE |
| Like.QuotedMatches | crates/executor/src/eval.rs:257-266 | an escaped text matches exactly itself, special characters included |
| Like.UnderscoreMatches | crates/executor/src/eval.rs:273-277 | a run of underscores matches exactly the texts of its length |
| Like.TimesIsProduct | crates/executor/src/eval.rs:240-245 | the step bound is that product |
| Pushdown.FindAnchor | crates/executor/src/exec.rs:827-844 | the partition all partition conjuncts name, none when they differ or are absent |
| Pushdown.Tighten | crates/executor/src/exec.rs:846-866 | an offset lies inside the result exactly when it meets every conjunct's limit |
| Pushdown.ExtractScanBounds | crates/executor/src/exec.rs:815-875 | the scan then delivers exactly the named partition's rows meeting every limit, or everything |
| Pushdown.KeptByAll | crates/pgtypes/src/ops.rs:510-518 | a row is kept exactly when every conjunct keeps it, NULL and errors included |
| Pushdown.OffsetHolds | crates/executor/src/exec.rs:951-986 | a kept row meets the conjunct's limit exactly when its successor did not wrap |
| Pushdown.PushdownExact | crates/executor/src/exec.rs:795-875 | a kept row is delivered exactly when no upper limit wraps under a named partition |
| Pushdown.PushdownPreserves | crates/executor/src/exec.rs:795-815 | filtering only the delivered rows gives the same rows in the same order, for every WHERE tree that evaluates without error |
| Pushdown.ComparisonBound | crates/executor/src/exec.rs:951-972 | an offset inequality with a literal, either way round, limits to exactly the offsets satisfying it, unless past the largest one |
| Pushdown.SelectiveScan | crates/executor/src/exec.rs:815-875 | a partition and one offset inequality read exactly the retained rows that satisfy both |
| Pushdown.FilterConcat | crates/executor/src/exec.rs:776-793 | filtering works row by row in order, and the first error ends it |
| Pushdown.ScanConcat | crates/kafka_fdw/src/source.rs:60-116 | a scan reads exactly the rows inside the bounds, in order |
| Pushdown.ThreeValued | crates/pgtypes/src/ops.rs:510-536 | AND, OR and NOT on true, false and unknown |
| Join.JoinRow | crates/executor/src/join.rs:117-126 | one left row's joined rows, its first error, and the right rows met so far |
| Join.JoinRows | crates/executor/src/join.rs:98-143 | the first error in row order, or exactly the joined rows |
| Join.PadLone | crates/executor/src/join.rs:133-141 | exactly the unmatched right rows, padded |
| Join.JoinAlgebra | crates/executor/src/join.rs:98-143 | FULL is INNER plus padded unmatched left plus padded unmatched right as multisets; LEFT and RIGHT take one |
| Join.InnerListed | crates/executor/src/join.rs:117-126 | one inner row for each pair of rows whose condition is true, by left and then right row, so as many rows as pairs |
| Join.LoneListed | crates/executor/src/join.rs:133-141 | the unmatched right rows are exactly those no left row matches, in order |
| Join.FirstErrorIs | crates/executor/src/join.rs:98-126 | the error is that of the first failing pair, by left and then right row; none exactly when every pair evaluates |
| Join.InnerSwaps | crates/executor/src/join.rs:99-110 | exchanging the sides of an inner join swaps the halves of its rows |
| Join.LeftMirrorsRight | crates/executor/src/join.rs:111-143 | LEFT(a, b) is RIGHT(b, a) with columns swapped |
| Join.JoinedWide | crates/executor/src/join.rs:98-143 | every row has the width of the combined schema |
| Join.CoalesceRow | crates/executor/src/join.rs:215-242 | merged keys first, then the other left and right columns in order |
| Join.OthersListed | crates/executor/src/join.rs:228-242 | the other columns are listed once each, in order, none missed |
| Join.PresentSideWins | crates/executor/src/join.rs:219-227 | a padded side never hides the present side's key |
| Group.FoldGroup | crates/executor/src/agg.rs:894-896 | one row is folded into every accumulator of its group, or the first that fails is reported |
| Group.FoldIn | crates/executor/src/agg.rs:879-897 | a row joins its own group, opened on first appearance, and changes no other |
| Group.Aggregate | crates/executor/src/agg.rs:874-902 | keys in first-appearance order, each accumulator the fold of exactly its group's rows; exactly the first failure in row and call order otherwise; one group for a bare aggregate over no rows |
| Group.KeysInOrder | crates/executor/src/agg.rs:874-893 | keys come in the order of their first rows |
| Group.GroupsPartition | crates/executor/src/agg.rs:874-897 | the group sizes add up to the number of rows |
| Group.CountsAddUp | crates/executor/src/agg.rs:677-683 | the count(*) column adds up to the number of rows |
| Group.FoldIsTake | crates/executor/src/agg.rs:684-700 | for any rows: the values taken are the non-NULL arguments in order, with multiplicity, under DISTINCT only first occurrences, up to the first row whose argument fails; the fold succeeds exactly when every argument evaluates and taking them does, and otherwise gives the first error |
| Group.RowsOfListed | crates/executor/src/agg.rs:874-897 | a group holds exactly the rows with its key, in their order |
| Group.SumRejects | crates/executor/src/agg.rs:702-713 | SUM fails on the first value that is no integer, unless it overflowed before |
| Group.DistinctValues | crates/executor/src/agg.rs:693-700 | DISTINCT takes every non-NULL value that occurs, none twice |
| Group.SumIsExact | crates/executor/src/agg.rs:702-713 | an integer sum is exact, NULL over nothing, and overflows exactly when a prefix leaves 64 bits |
| Group.Extremes | crates/executor/src/agg.rs:742-758 | MIN and MAX over non-NULL values of any type hold the smallest and largest, and fail exactly when the types differ |
| Datums.TextOrderIs | crates/pgtypes/src/ops.rs:441-447 | text compares alphabetically: a prefix, or the smaller character where the texts first differ |
| Codec.SerializeSchema | crates/catalog/src/serde.rs:187-213 | the loops write the schema's byte form |
| Codec.DeserializeSchema | crates/catalog/src/serde.rs:221-251 | the counted loops read what the grammar reads, with the same errors |
| Codec.Header | crates/catalog/src/serde.rs:192-200 | a version byte 2, then the id and the column count in four bytes each, most significant first |
| Codec.Refused | crates/catalog/src/serde.rs:221-251 | no bytes, another version, an unknown type or flag, a reserved byte that is not zero and bytes that are no string are refused, each with its own error |
| Codec.SchemaExtends | crates/catalog/src/serde.rs:221-251 | more bytes change nothing read so far |
| Codec.RoundTrip | crates/catalog/src/serde.rs:187-251 | reading a written schema gives it back and consumes every byte |
| Codec.StrictPrefixRejected | crates/catalog/src/serde.rs:221-251 | no strict prefix of an encoding is accepted |
| Codec.Injective | crates/catalog/src/serde.rs:187-213 | schemas with the same encoding are the same |

## Left out

- Raft elections and replication, fjall, fsync, sockets, timeouts and metrics watches: one committed log, applied prefixes and free leader and term steps stand for them.
- SQL parsing, planning, type inference, casts, date-time, numeric and float arithmetic, and text rendering: wide tables of easy cases; values are integers, booleans, text and NULL.
- AVG and float or numeric SUM: they rest on arithmetic that is not modelled.
- Corrupt stored bytes on the read path: a counter value shorter than eight bytes or a bad clog byte, which only this system writes, is excluded or read as zero; the clog decoder's errors are modelled in `Decision`.
- `effective_global_xid`: the adoption of an older global xid by a re-staged writer is not modelled; a transaction's marker never changes.
- Codec for wrappers, servers and user mappings: the same primitives, fewer fields.
- Range splitting and routing, the coordinator's client retries, connection pooling and the read barrier's transport.
- `release_all_for_range` and other hooks used only by the repository's own test code.
- WritePath.RunWrite: the lock and re-check outcomes of each candidate are inputs, since other transactions run between them; the state machine of `Mvcc` says which outcomes can occur.
- TwoPhase.TxnService.Stage: whether the range serves, what the marker lookup found and how the session's begin, join and run ended are inputs; `RestageFinds` connects the lookup. A range deregistered between the first test and the joining is not modelled.
- MvccRuns.StepRejoin: a returning transaction gets back its registration and the locks of the rows it wrote; locks on rows it had only locked, and its older snapshots, are not restored. Its xid has no record: `Mvcc` never hands out an xid twice, although a surviving session's xid, or one recorded without the counter, can come out again (`Ids.IdReused`, `UncountedReissued`).
- MvccRuns.AtMostOneLive: a row a READ COMMITTED statement has already rewritten is left out for that statement's own snapshot, which never reads it again.
- DurableApply.AnySplit: one direction only across several calls, since a later call can overwrite an earlier difference; `BatchExact` is exact for one call.
- DurableApply.AnyEntrySplit: one direction only, for the same reason.
