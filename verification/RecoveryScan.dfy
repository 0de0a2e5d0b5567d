/** The scans a rising leader runs over its clog: the in-doubt set with its watermark, the marker
    lookup that makes staging idempotent, and the re-locking of inherited rows. */
module RecoveryScan {
  import opened Base
  import opened Visibility
  import Locks

  type Clog = map<Xid, Status>

  predicate InRange(li: Xid, lo: Xid) { lo <= li < GLOBAL_XID_BASE }

  /** `li` is a marker whose global transaction has no decision in `decided`. */
  predicate InDoubtAt(clog: Clog, decided: set<Xid>, li: Xid) {
    li in clog && clog[li].Prepared? && clog[li].g !in decided
  }

  /** The globals in doubt among the markers from `lo` on. */
  ghost function InDoubt(clog: Clog, decided: set<Xid>, lo: Xid): set<Xid> {
    set li | li in clog && InRange(li, lo) && InDoubtAt(clog, decided, li) :: clog[li].g
  }

  /** A global is in doubt exactly when it has no decision and some local entry marks it. */
  lemma InDoubtMeans(clog: Clog, decided: set<Xid>, lo: Xid, g: Xid)
    ensures g in InDoubt(clog, decided, lo) <==>
            g !in decided && exists li :: li in clog && lo <= li < GLOBAL_XID_BASE && clog[li] == Prepared(g)
  {
    if li :| li in clog && InRange(li, lo) && clog[li] == Prepared(g) && g !in decided {
      assert InDoubtAt(clog, decided, li);
    }
  }

  /** A range scan of the clog from `lo`: exactly the local entries, in ascending order. */
  ghost predicate Scans(scanned: seq<(Xid, Status)>, clog: Clog, lo: Xid) {
    && (forall i, j | 0 <= i < j < |scanned| :: scanned[i].0 < scanned[j].0)
    && (forall i | 0 <= i < |scanned| ::
          InRange(scanned[i].0, lo) && scanned[i].0 in clog && clog[scanned[i].0] == scanned[i].1)
    && (forall li | li in clog && InRange(li, lo) :: exists i :: 0 <= i < |scanned| && scanned[i].0 == li)
  }

  /** `in_doubt_globals_from`: the undecided globals, and a watermark that never passes a marker
      without a decision. */
  method InDoubtGlobalsFrom(scanned: seq<(Xid, Status)>, decided: set<Xid>, lo: Xid, ghost clog: Clog)
    returns (gs: set<Xid>, newLo: Xid)
    requires Scans(scanned, clog, lo)
    ensures gs == InDoubt(clog, decided, lo)
    ensures lo <= newLo
    ensures forall li: Xid | InRange(li, lo) && li < newLo :: !InDoubtAt(clog, decided, li)
    ensures gs != {} ==> InRange(newLo, lo) && InDoubtAt(clog, decided, newLo)
    ensures gs == {} ==> forall li | li in clog && InRange(li, lo) :: li < newLo
    ensures gs == {} ==> newLo == lo || (InRange(newLo - 1, lo) && newLo - 1 in clog)
  {
    gs := {};
    var first: Option<Xid> := None;
    var maxLi: Option<Xid> := None;
    for i := 0 to |scanned|
      invariant maxLi == if i == 0 then None else Some(scanned[i - 1].0)
      invariant gs == Undecided(scanned, decided, i) && first == First(scanned, decided, i)
    {
      var (li, status) := scanned[i];
      maxLi := Some(li);
      if status.Prepared? && status.g !in decided {
        gs := gs + {status.g};
        if first.None? { first := Some(li); }
      }
    }
    UndecidedIs(scanned, decided, lo, clog);
    FirstIs(scanned, decided, |scanned|);
    var reached := if first.Some? then first.value else if maxLi.Some? then maxLi.value + 1 else lo;
    newLo := Max(reached, lo);
    ScanBound(scanned, decided, lo, clog, newLo);
  }

  predicate Open(e: (Xid, Status), decided: set<Xid>) { e.1.Prepared? && e.1.g !in decided }

  ghost function Undecided(scanned: seq<(Xid, Status)>, decided: set<Xid>, n: nat): set<Xid>
    requires n <= |scanned|
  {
    if n == 0 then {}
    else Undecided(scanned, decided, n - 1) + (if Open(scanned[n - 1], decided) then {scanned[n - 1].1.g} else {})
  }

  ghost function First(scanned: seq<(Xid, Status)>, decided: set<Xid>, n: nat): Option<Xid>
    requires n <= |scanned|
  {
    if n == 0 then None
    else
      var f := First(scanned, decided, n - 1);
      if f.None? && Open(scanned[n - 1], decided) then Some(scanned[n - 1].0) else f
  }

  lemma {:induction false} FirstIs(scanned: seq<(Xid, Status)>, decided: set<Xid>, n: nat)
    requires n <= |scanned|
    ensures First(scanned, decided, n).None? ==> forall k | 0 <= k < n :: !Open(scanned[k], decided)
    ensures First(scanned, decided, n).Some? ==>
              exists k :: 0 <= k < n && Open(scanned[k], decided) && First(scanned, decided, n).value == scanned[k].0 &&
                          forall m | 0 <= m < k :: !Open(scanned[m], decided)
  {
    if n > 0 { FirstIs(scanned, decided, n - 1); }
  }

  lemma {:induction false} UndecidedHas(scanned: seq<(Xid, Status)>, decided: set<Xid>, n: nat, g: Xid)
    requires n <= |scanned|
    ensures g in Undecided(scanned, decided, n) <==> exists k :: 0 <= k < n && Open(scanned[k], decided) && scanned[k].1.g == g
  {
    if n > 0 { UndecidedHas(scanned, decided, n - 1, g); }
  }

  lemma UndecidedIs(scanned: seq<(Xid, Status)>, decided: set<Xid>, lo: Xid, clog: Clog)
    requires Scans(scanned, clog, lo)
    ensures Undecided(scanned, decided, |scanned|) == InDoubt(clog, decided, lo)
  {
    forall g: Xid ensures g in Undecided(scanned, decided, |scanned|) <==> g in InDoubt(clog, decided, lo) {
      UndecidedHas(scanned, decided, |scanned|, g);
      if g in InDoubt(clog, decided, lo) {
        var li :| li in clog && InRange(li, lo) && InDoubtAt(clog, decided, li) && clog[li].g == g;
        var i :| 0 <= i < |scanned| && scanned[i].0 == li;
        assert Open(scanned[i], decided);
      }
      if g in Undecided(scanned, decided, |scanned|) {
        var k :| 0 <= k < |scanned| && Open(scanned[k], decided) && scanned[k].1.g == g;
        assert InDoubtAt(clog, decided, scanned[k].0);
      }
    }
  }

  /** What the computed bound separates. */
  lemma ScanBound(scanned: seq<(Xid, Status)>, decided: set<Xid>, lo: Xid, clog: Clog, newLo: Xid)
    requires Scans(scanned, clog, lo)
    requires var first := First(scanned, decided, |scanned|);
             newLo == Max(if first.Some? then first.value
                          else if scanned != [] then scanned[|scanned| - 1].0 + 1 else lo, lo)
    ensures forall li: Xid | InRange(li, lo) && li < newLo :: !InDoubtAt(clog, decided, li)
    ensures InDoubt(clog, decided, lo) != {} ==> InRange(newLo, lo) && InDoubtAt(clog, decided, newLo)
    ensures InDoubt(clog, decided, lo) == {} ==> forall li | li in clog && InRange(li, lo) :: li < newLo
    ensures InDoubt(clog, decided, lo) == {} ==> newLo == lo || (InRange(newLo - 1, lo) && newLo - 1 in clog)
  {
    FirstIs(scanned, decided, |scanned|);
    forall li: Xid | InRange(li, lo) && li in clog
      ensures First(scanned, decided, |scanned|).None? ==> li < newLo
      ensures InDoubtAt(clog, decided, li) ==> First(scanned, decided, |scanned|).Some? && newLo <= li
    {
      var i :| 0 <= i < |scanned| && scanned[i].0 == li;
      if InDoubtAt(clog, decided, li) { assert Open(scanned[i], decided); }
    }
    if First(scanned, decided, |scanned|).Some? {
      assert newLo in clog && InDoubtAt(clog, decided, newLo) && clog[newLo].g in InDoubt(clog, decided, lo);
    }
  }

  /** `staged_local_for`: the first marker of `g` at or past the watermark. */
  method StagedLocalFor(scanned: seq<(Xid, Status)>, g: Xid, lo: Xid, ghost clog: Clog) returns (found: Option<Xid>)
    requires Scans(scanned, clog, lo)
    ensures found.Some? ==> InRange(found.value, lo) && found.value in clog && clog[found.value] == Prepared(g)
    ensures found.Some? ==> forall li: Xid | InRange(li, lo) && li in clog && clog[li] == Prepared(g) :: found.value <= li
    ensures found.None? ==> forall li: Xid | InRange(li, lo) && li in clog :: clog[li] != Prepared(g)
  {
    for i := 0 to |scanned|
      invariant forall k | 0 <= k < i :: scanned[k].1 != Prepared(g)
    {
      if scanned[i].1 == Prepared(g) { return Some(scanned[i].0); }
    }
    return None;
  }

  /** No marker below the watermark is undecided. */
  ghost predicate WatermarkOk(clog: Clog, decided: set<Xid>, lo: Xid) {
    forall li: Xid | li < lo :: !InDoubtAt(clog, decided, li)
  }

  /** RECOVERY SCAN COMPLETENESS: with a sound watermark the bounded scan loses nothing. On a
      caught-up replica it returns exactly the undecided globals, as the full scan would; on a
      lagging one it returns at least those and nothing the full scan would not. */
  lemma BoundedScanComplete(clog: Clog, decided: set<Xid>, replica: set<Xid>, lo: Xid)
    requires WatermarkOk(clog, decided, lo) && replica <= decided
    ensures InDoubt(clog, decided, lo) == InDoubt(clog, decided, 0)
    ensures InDoubt(clog, decided, 0) <= InDoubt(clog, replica, lo) <= InDoubt(clog, replica, 0)
  {
    forall g | g in InDoubt(clog, decided, 0) ensures g in InDoubt(clog, decided, lo) && g in InDoubt(clog, replica, lo) {
      var li :| li in clog && InRange(li, 0) && InDoubtAt(clog, decided, li) && clog[li].g == g;
      assert InRange(li, lo) && InDoubtAt(clog, replica, li);
    }
  }

  /** With a sound watermark `staged_local_for` finds the marker of any undecided global. */
  lemma StagedIsFound(clog: Clog, decided: set<Xid>, lo: Xid, g: Xid, li: Xid)
    requires WatermarkOk(clog, decided, lo) && g !in decided
    requires li in clog && clog[li] == Prepared(g) && li < GLOBAL_XID_BASE
    ensures InRange(li, lo)
  {
    assert InDoubtAt(clog, decided, li);
  }

  /** The scan's own watermark is sound for the clog it saw, whatever replica it read. */
  lemma ScanWatermarkSound(clog: Clog, decided: set<Xid>, replica: set<Xid>, lo: Xid, newLo: Xid)
    requires WatermarkOk(clog, decided, lo) && replica <= decided && newLo <= GLOBAL_XID_BASE
    requires forall li: Xid | InRange(li, lo) && li < newLo :: !InDoubtAt(clog, replica, li)
    ensures WatermarkOk(clog, decided, newLo)
  {
    forall li: Xid | li < newLo ensures !InDoubtAt(clog, decided, li) {
      if li >= lo { assert InRange(li, lo); }
    }
  }

  // ---- Re-locking ---------------------------------------------------------------------------

  datatype VersionKey = VersionKey(row: Locks.Row, xmin: Xid)

  /** The in-doubt transactions that created one of the first `n` versions, if it is of the row. */
  function Claimants(versions: seq<VersionKey>, inDoubt: map<Xid, Xid>, row: Locks.Row, n: nat): set<Xid>
    requires n <= |versions|
  {
    set k | 0 <= k < n && versions[k].row == row && versions[k].xmin in inDoubt :: versions[k].xmin
  }

  function HoldersOf(locks: map<Locks.Row, Locks.RowLock>, row: Locks.Row): set<Xid> {
    if row in locks then locks[row].holders else {}
  }

  /** A claimed row is locked exclusively by its claimants and whoever held it; any other row is as
      it was. */
  predicate RowReacquired(before: map<Locks.Row, Locks.RowLock>, after: map<Locks.Row, Locks.RowLock>,
                          row: Locks.Row, claimants: set<Xid>)
  {
    if claimants == {} then (row in after <==> row in before) && (row in before ==> after[row] == before[row])
    else row in after && after[row] == Locks.RowLock(Locks.Exclusive, HoldersOf(before, row) + claimants)
  }

  ghost predicate Reacquired(before: map<Locks.Row, Locks.RowLock>, after: map<Locks.Row, Locks.RowLock>,
                             versions: seq<VersionKey>, inDoubt: map<Xid, Xid>, n: nat)
    requires n <= |versions|
  {
    forall row: Locks.Row :: RowReacquired(before, after, row, Claimants(versions, inDoubt, row, n))
  }

  /** The second half of `reacquire_in_doubt_locks`: lock every row with a version created by an
      in-doubt transaction, on top of whatever the table holds. */
  method ReacquireInDoubtLocks(versions: seq<VersionKey>, inDoubt: map<Xid, Xid>, lockmgr: Locks.RowLockManager)
    modifies lockmgr`locks
    ensures Reacquired(old(lockmgr.locks), lockmgr.locks, versions, inDoubt, |versions|)
    ensures forall k | 0 <= k < |versions| && versions[k].xmin in inDoubt ::
              && versions[k].row in lockmgr.locks && lockmgr.locks[versions[k].row].mode == Locks.Exclusive
              && versions[k].xmin in lockmgr.locks[versions[k].row].holders
    ensures forall row | row in old(lockmgr.locks) ::
              row in lockmgr.locks && old(lockmgr.locks)[row].holders <= lockmgr.locks[row].holders
    ensures forall row | forall k | 0 <= k < |versions| && versions[k].row == row :: versions[k].xmin !in inDoubt ::
              && (row in lockmgr.locks <==> row in old(lockmgr.locks))
              && (row in lockmgr.locks ==> lockmgr.locks[row] == old(lockmgr.locks)[row])
    ensures forall row, y | row in lockmgr.locks && y in lockmgr.locks[row].holders ::
              || (row in old(lockmgr.locks) && y in old(lockmgr.locks)[row].holders)
              || (y in inDoubt && VersionKey(row, y) in versions)
  {
    for i := 0 to |versions|
      invariant Reacquired(old(lockmgr.locks), lockmgr.locks, versions, inDoubt, i)
    {
      ReacquiredStep(old(lockmgr.locks), lockmgr.locks, versions, inDoubt, i);
      if versions[i].xmin in inDoubt {
        lockmgr.ReacquireExclusive(versions[i].row, versions[i].xmin);
      }
    }
    ReacquiredMeans(old(lockmgr.locks), lockmgr.locks, versions, inDoubt);
  }

  /** Every in-doubt creator holds its row exclusively, nobody loses a lock, and nothing else is
      locked or changed. */
  lemma ReacquiredMeans(before: map<Locks.Row, Locks.RowLock>, after: map<Locks.Row, Locks.RowLock>,
                        versions: seq<VersionKey>, inDoubt: map<Xid, Xid>)
    requires Reacquired(before, after, versions, inDoubt, |versions|)
    ensures forall k | 0 <= k < |versions| && versions[k].xmin in inDoubt ::
              && versions[k].row in after && after[versions[k].row].mode == Locks.Exclusive
              && versions[k].xmin in after[versions[k].row].holders
    ensures forall row | row in before :: row in after && before[row].holders <= after[row].holders
    ensures forall row | forall k | 0 <= k < |versions| && versions[k].row == row :: versions[k].xmin !in inDoubt ::
              (row in after <==> row in before) && (row in after ==> after[row] == before[row])
    ensures forall row, y | row in after && y in after[row].holders ::
              (row in before && y in before[row].holders) || (y in inDoubt && VersionKey(row, y) in versions)
  {
    forall k | 0 <= k < |versions| && versions[k].xmin in inDoubt
      ensures versions[k].row in after && after[versions[k].row].mode == Locks.Exclusive
      ensures versions[k].xmin in after[versions[k].row].holders
    {
      var row := versions[k].row;
      assert versions[k].xmin in Claimants(versions, inDoubt, row, |versions|);
      assert RowReacquired(before, after, row, Claimants(versions, inDoubt, row, |versions|));
    }
    forall row, y | row in after && y in after[row].holders
      ensures (row in before && y in before[row].holders) || (y in inDoubt && VersionKey(row, y) in versions)
    {
      var claimants := Claimants(versions, inDoubt, row, |versions|);
      assert RowReacquired(before, after, row, claimants);
      if y in claimants {
        var k :| 0 <= k < |versions| && versions[k].row == row && versions[k].xmin == y && y in inDoubt;
        assert versions[k] == VersionKey(row, y);
      }
    }
    forall row | row in before ensures row in after && before[row].holders <= after[row].holders {
      assert RowReacquired(before, after, row, Claimants(versions, inDoubt, row, |versions|));
    }
    forall row | forall k | 0 <= k < |versions| && versions[k].row == row :: versions[k].xmin !in inDoubt
      ensures (row in after <==> row in before) && (row in after ==> after[row] == before[row])
    {
      assert Claimants(versions, inDoubt, row, |versions|) == {};
      assert RowReacquired(before, after, row, {});
    }
  }

  lemma ReacquiredStep(before: map<Locks.Row, Locks.RowLock>, after: map<Locks.Row, Locks.RowLock>,
                       versions: seq<VersionKey>, inDoubt: map<Xid, Xid>, i: nat)
    requires i < |versions| && Reacquired(before, after, versions, inDoubt, i)
    ensures var v := versions[i];
            Reacquired(before, if v.xmin in inDoubt then Locks.Relocked(after, v.row, v.xmin) else after,
                       versions, inDoubt, i + 1)
  {
    var v, n := versions[i], i + 1;
    var locks := if v.xmin in inDoubt then Locks.Relocked(after, v.row, v.xmin) else after;
    forall row: Locks.Row ensures RowReacquired(before, locks, row, Claimants(versions, inDoubt, row, n)) {
      ClaimantsStep(versions, inDoubt, row, i);
      RelockedRow(before, after, row, Claimants(versions, inDoubt, row, i), v);
    }
  }

  lemma ClaimantsStep(versions: seq<VersionKey>, inDoubt: map<Xid, Xid>, row: Locks.Row, i: nat)
    requires i < |versions|
    ensures Claimants(versions, inDoubt, row, i + 1) ==
            Claimants(versions, inDoubt, row, i) +
            if versions[i].row == row && versions[i].xmin in inDoubt then {versions[i].xmin} else {}
  {}

  lemma RelockedRow(before: map<Locks.Row, Locks.RowLock>, after: map<Locks.Row, Locks.RowLock>, row: Locks.Row,
                    claimants: set<Xid>, v: VersionKey)
    requires RowReacquired(before, after, row, claimants)
    ensures RowReacquired(before, after, row, claimants + {})
    ensures RowReacquired(before, Locks.Relocked(after, v.row, v.xmin), row, claimants + if v.row == row then {v.xmin} else {})
  {
    assert claimants + {} == claimants;
    if v.row == row {
      assert HoldersOf(before, row) + claimants + {v.xmin} == HoldersOf(before, row) + (claimants + {v.xmin});
      assert claimants == {} ==> HoldersOf(before, row) + {v.xmin} == HoldersOf(before, row) + (claimants + {v.xmin});
      assert v.xmin in claimants + {v.xmin};
    }
  }

  /** EXACT CONDITION: a claimed row ends up held by one in-doubt transaction alone exactly when it
      is the only claimant and nobody else held the row. */
  lemma HeldAlone(before: map<Locks.Row, Locks.RowLock>, after: map<Locks.Row, Locks.RowLock>,
                  versions: seq<VersionKey>, inDoubt: map<Xid, Xid>, row: Locks.Row, x: Xid)
    requires Reacquired(before, after, versions, inDoubt, |versions|)
    requires x in Claimants(versions, inDoubt, row, |versions|)
    ensures row in after && after[row].mode == Locks.Exclusive && x in after[row].holders
    ensures after[row].holders == {x} <==>
            Claimants(versions, inDoubt, row, |versions|) == {x} && HoldersOf(before, row) <= {x}
  {
    var all := HoldersOf(before, row) + Claimants(versions, inDoubt, row, |versions|);
    assert RowReacquired(before, after, row, Claimants(versions, inDoubt, row, |versions|));
    assert after[row].holders == all;
    assert all == {x} ==> Claimants(versions, inDoubt, row, |versions|) <= {x} && HoldersOf(before, row) <= {x};
  }
}
