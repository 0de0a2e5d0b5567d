/** Snapshot visibility (`mvcc::visibility`, `mvcc::clog`) and the reading half of the
    executor: the global-aware status resolver, the single-row finder, the table scan and
    the re-check under the row lock. */
module Visibility {
  import opened Base

  type Xid = nat
  type RowId = nat
  type Tuple = seq<int>

  /** The `xmax` of a version nobody has superseded; never a real transaction id. */
  const INVALID_XID: Xid := 0

  const MAX_U64: nat := 0xFFFF_FFFF_FFFF_FFFF

  /** Local xids lie below, global xids at or above. */
  const GLOBAL_XID_BASE: Xid := 0x8000_0000_0000_0000

  datatype Status = InProgress | Committed | Aborted | Prepared(g: Xid)

  /** One tuple version; the creating xid (`xmin`) is the key it is stored under. */
  datatype Version = Version(xmax: Xid, row: Tuple)

  datatype Snapshot = Snapshot(xmax: Xid, xip: set<Xid>) {
    /** Was `xid` running at, or started after, this snapshot? */
    predicate IsRunning(xid: Xid) { xid >= xmax || xid in xip }
  }

  /** What a resolver reads: this range's clog, a replica of range 0's decisions
      (`true` for committed) and the global snapshot that gates them. */
  datatype View = View(clog: map<Xid, Status>, decided: map<Xid, bool>, gsnap: Snapshot)

  function ClogGet(clog: map<Xid, Status>, xid: Xid): Status {
    if xid in clog then clog[xid] else InProgress
  }

  function DecisionOf(decided: map<Xid, bool>, g: Xid): Status {
    if g !in decided then InProgress else if decided[g] then Committed else Aborted
  }

  /** The global-aware clog resolver: a `Prepared(-> g)` marker is dereferenced to range 0's
      decision once `g` is settled for the global snapshot. */
  function GlobalStatus(view: View, xid: Xid): Status {
    match ClogGet(view.clog, xid)
    case Prepared(g) => if view.gsnap.IsRunning(g) then InProgress else DecisionOf(view.decided, g)
    case other => other
  }

  predicate CommittedVisible(view: View, snap: Snapshot, own: Option<Xid>, xid: Xid) {
    own == Some(xid) || (!snap.IsRunning(xid) && GlobalStatus(view, xid) == Committed)
  }

  predicate SatisfiesMvcc(view: View, snap: Snapshot, own: Option<Xid>, xmin: Xid, xmax: Xid) {
    && CommittedVisible(view, snap, own, xmin)
    && (xmax != INVALID_XID ==> !CommittedVisible(view, snap, own, xmax))
  }

  /** The global snapshot under which every global transaction counts as settled. */
  const SETTLED := Snapshot(MAX_U64, {})

  /** `xmin` names a version of the row that the snapshot sees. */
  predicate VisibleIn(vs: map<Xid, Version>, view: View, snap: Snapshot, own: Option<Xid>, xmin: Xid) {
    xmin in vs && SatisfiesMvcc(view, snap, own, xmin, vs[xmin].xmax)
  }

  /** `out` is the greatest visible version, `None` when none is visible. */
  ghost predicate Finds(vs: map<Xid, Version>, view: View, snap: Snapshot, own: Option<Xid>, out: Option<Xid>) {
    match out
    case None => forall a | a in vs :: !VisibleIn(vs, view, snap, own, a)
    case Some(x) => VisibleIn(vs, view, snap, own, x) &&
                    forall a | a in vs && VisibleIn(vs, view, snap, own, a) :: a <= x
  }

  /** Some version was superseded or deleted by a committed transaction, other than `xid`,
      that the snapshot does not see. */
  ghost predicate ChangedSince(vs: map<Xid, Version>, view: View, snap: Snapshot, xid: Xid) {
    exists a :: a in vs && vs[a].xmax != INVALID_XID && vs[a].xmax != xid &&
                GlobalStatus(view, vs[a].xmax) == Committed && snap.IsRunning(vs[a].xmax)
  }

  /** The outcome of the re-check under the row lock. */
  datatype Recheck = SerializationFailure | Skip | Operate(xmin: Xid)

  function ToRecheck(found: Option<Xid>): Recheck {
    match found case None => Skip case Some(x) => Operate(x)
  }

  ghost predicate EvalPlanQual(vs: map<Xid, Version>, view: View, snap: Snapshot, latest: Snapshot,
                               xid: Xid, repeatableRead: bool, out: Recheck)
  {
    if ChangedSince(vs, view, snap, xid) then
      if repeatableRead then out == SerializationFailure
      else exists f: Option<Xid> :: Finds(vs, view, latest, Some(xid), f) && out == ToRecheck(f)
    else exists f: Option<Xid> :: Finds(vs, view, snap, Some(xid), f) && out == ToRecheck(f)
  }

  /** `scanned` lists exactly the versions in `vs`, each once. */
  ghost predicate Lists(scanned: seq<(Xid, Version)>, vs: map<Xid, Version>) {
    && (forall i, j | 0 <= i < j < |scanned| :: scanned[i].0 != scanned[j].0)
    && (forall i | 0 <= i < |scanned| :: scanned[i].0 in vs && vs[scanned[i].0] == scanned[i].1)
    && (forall a | a in vs :: exists i :: 0 <= i < |scanned| && scanned[i].0 == a)
  }

  /** `find_visible_one`: keeps the greatest visible `xmin` whatever the scan order. */
  method FindVisibleOne(view: View, snap: Snapshot, own: Option<Xid>, scanned: seq<(Xid, Version)>,
                        ghost vs: map<Xid, Version>)
    returns (found: Option<(Xid, Tuple)>)
    requires Lists(scanned, vs)
    ensures found.None? ==> Finds(vs, view, snap, own, None)
    ensures found.Some? ==> Finds(vs, view, snap, own, Some(found.value.0)) &&
                            found.value.1 == vs[found.value.0].row
  {
    found := None;
    for i := 0 to |scanned|
      invariant found.Some? ==> VisibleIn(vs, view, snap, own, found.value.0) &&
                                found.value.1 == vs[found.value.0].row
      invariant forall k | 0 <= k < i && VisibleIn(vs, view, snap, own, scanned[k].0) ::
                  found.Some? && scanned[k].0 <= found.value.0
    {
      var (xmin, v) := scanned[i];
      if SatisfiesMvcc(view, snap, own, xmin, v.xmax) {
        if found.None? || xmin > found.value.0 {
          found := Some((xmin, v.row));
        }
      }
    }
  }

  /** `eval_plan_qual`, over the row's versions re-read under the lock. */
  method RecheckRow(clog: map<Xid, Status>, decided: map<Xid, bool>, snap: Snapshot, latest: Snapshot,
                    xid: Xid, repeatableRead: bool, scanned: seq<(Xid, Version)>, ghost vs: map<Xid, Version>)
    returns (out: Recheck, row: Tuple)
    requires Lists(scanned, vs)
    ensures EvalPlanQual(vs, View(clog, decided, SETTLED), snap, latest, xid, repeatableRead, out)
    ensures out.Operate? ==> out.xmin in vs && row == vs[out.xmin].row
  {
    var view := View(clog, decided, SETTLED);
    row := [];
    var changed := false;
    for i := 0 to |scanned|
      invariant changed <==> exists k :: 0 <= k < i && scanned[k].1.xmax != INVALID_XID &&
                                         scanned[k].1.xmax != xid &&
                                         GlobalStatus(view, scanned[k].1.xmax) == Committed &&
                                         snap.IsRunning(scanned[k].1.xmax)
    {
      var m := scanned[i].1.xmax;
      if m != INVALID_XID && m != xid && GlobalStatus(view, m) == Committed && snap.IsRunning(m) {
        changed := true;
      }
    }
    assert changed <==> ChangedSince(vs, view, snap, xid);
    if changed && repeatableRead {
      return SerializationFailure, row;
    }
    var found := FindVisibleOne(view, if changed then latest else snap, Some(xid), scanned, vs);
    ghost var f: Option<Xid> := if found.Some? then Some(found.value.0) else None;
    assert Finds(vs, view, if changed then latest else snap, Some(xid), f);
    match found
    case None => out := Skip;
    case Some(p) => out, row := Operate(p.0), p.1;
    assert out == ToRecheck(f);
  }

  datatype Stored = Stored(rowid: RowId, xmin: Xid, version: Version)

  /** Key order of a table scan: by rowid, then by creating xid. */
  ghost predicate KeyOrdered(scanned: seq<Stored>) {
    forall i, j | 0 <= i < j < |scanned| ::
      scanned[i].rowid < scanned[j].rowid ||
      (scanned[i].rowid == scanned[j].rowid && scanned[i].xmin < scanned[j].xmin)
  }

  ghost predicate LiveAt(scanned: seq<Stored>, view: View, snap: Snapshot, own: Option<Xid>, k: int) {
    0 <= k < |scanned| && SatisfiesMvcc(view, snap, own, scanned[k].xmin, scanned[k].version.xmax)
  }

  /** The entry at `k` is the greatest visible version of its row among the entries before `hi`. */
  ghost predicate TopAt(scanned: seq<Stored>, hi: int, view: View, snap: Snapshot, own: Option<Xid>, k: int) {
    k < hi && LiveAt(scanned, view, snap, own, k) &&
    forall m | k < m < hi && LiveAt(scanned, view, snap, own, m) :: scanned[m].rowid != scanned[k].rowid
  }

  function Row(e: Stored): (RowId, Xid, Tuple) { (e.rowid, e.xmin, e.version.row) }

  /** The inner loop of `scan_live`: the entries of one row, from `start` to the next row. */
  method ScanRow(view: View, snap: Snapshot, own: Option<Xid>, scanned: seq<Stored>, start: nat)
    returns (end: nat, top: Option<nat>)
    requires KeyOrdered(scanned) && start < |scanned|
    ensures start < end <= |scanned|
    ensures forall k | start <= k < end :: scanned[k].rowid == scanned[start].rowid
    ensures end < |scanned| ==> scanned[start].rowid < scanned[end].rowid
    ensures top.None? ==> forall k | start <= k < end :: !LiveAt(scanned, view, snap, own, k)
    ensures top.Some? ==> start <= top.value && TopAt(scanned, end, view, snap, own, top.value)
  {
    end, top := start, None;
    while end < |scanned| && scanned[end].rowid == scanned[start].rowid
      invariant start <= end <= |scanned|
      invariant forall k | start <= k < end :: scanned[k].rowid == scanned[start].rowid
      invariant top.Some? ==> start <= top.value < end && LiveAt(scanned, view, snap, own, top.value)
      invariant forall k | start <= k < end && LiveAt(scanned, view, snap, own, k) :: top.Some? && k <= top.value
    {
      var e := scanned[end];
      if SatisfiesMvcc(view, snap, own, e.xmin, e.version.xmax) {
        if top.None? || e.xmin > scanned[top.value].xmin {
          top := Some(end);
        }
      }
      end := end + 1;
    }
  }

  /** `scan_live`: one pass over the key-ordered scan, one output row per row that has a
      visible version, in rowid order. */
  method ScanLive(view: View, snap: Snapshot, own: Option<Xid>, scanned: seq<Stored>)
    returns (out: seq<(RowId, Xid, Tuple)>)
    requires KeyOrdered(scanned)
    ensures forall i, j | 0 <= i < j < |out| :: out[i].0 < out[j].0
    ensures forall o | o in out :: exists k ::
              && 0 <= k < |scanned| && SatisfiesMvcc(view, snap, own, scanned[k].xmin, scanned[k].version.xmax)
              && o.0 == scanned[k].rowid && o.1 == scanned[k].xmin && o.2 == scanned[k].version.row
    ensures forall k | 0 <= k < |scanned| && SatisfiesMvcc(view, snap, own, scanned[k].xmin, scanned[k].version.xmax) ::
              exists o :: o in out && o.0 == scanned[k].rowid && scanned[k].xmin <= o.1
  {
    out := [];
    var i := 0;
    while i < |scanned|
      invariant 0 <= i <= |scanned|
      invariant 0 < i < |scanned| ==> scanned[i - 1].rowid < scanned[i].rowid
      invariant forall a, b | 0 <= a < b < |out| :: out[a].0 < out[b].0
      invariant forall o | o in out :: exists k :: TopAt(scanned, i, view, snap, own, k) && o == Row(scanned[k])
      invariant forall k | TopAt(scanned, i, view, snap, own, k) :: Row(scanned[k]) in out
    {
      var end, top := ScanRow(view, snap, own, scanned, i);
      TopsOfNextRow(view, snap, own, scanned, i, end);
      if top.Some? {
        forall a | 0 <= a < |out| ensures out[a].0 < scanned[i].rowid {
          assert out[a] in out;
          var k :| TopAt(scanned, i, view, snap, own, k) && out[a] == Row(scanned[k]);
        }
        out := out + [Row(scanned[top.value])];
      }
      i := end;
    }
    forall k | LiveAt(scanned, view, snap, own, k)
      ensures exists o :: o in out && o.0 == scanned[k].rowid && scanned[k].xmin <= o.1
    {
      var t := LastLive(view, snap, own, scanned, k);
      assert Row(scanned[t]) in out;
    }
  }

  /** The last visible entry of a row is the greatest. */
  lemma LastLive(view: View, snap: Snapshot, own: Option<Xid>, scanned: seq<Stored>, k: nat) returns (t: nat)
    requires KeyOrdered(scanned) && LiveAt(scanned, view, snap, own, k)
    ensures TopAt(scanned, |scanned|, view, snap, own, t)
    ensures scanned[t].rowid == scanned[k].rowid && scanned[k].xmin <= scanned[t].xmin
    decreases |scanned| - k
  {
    t := k;
    if m :| k < m < |scanned| && LiveAt(scanned, view, snap, own, m) && scanned[m].rowid == scanned[k].rowid {
      t := LastLive(view, snap, own, scanned, m);
    }
  }

  /** Reading one more row keeps the earlier rows' winners and adds only winners of that row. */
  lemma TopsOfNextRow(view: View, snap: Snapshot, own: Option<Xid>, scanned: seq<Stored>, start: nat, end: nat)
    requires KeyOrdered(scanned) && start < end <= |scanned|
    requires 0 < start ==> scanned[start - 1].rowid < scanned[start].rowid
    requires forall k | start <= k < end :: scanned[k].rowid == scanned[start].rowid
    ensures forall k | k < start :: TopAt(scanned, start, view, snap, own, k) <==> TopAt(scanned, end, view, snap, own, k)
    ensures forall k, m | TopAt(scanned, end, view, snap, own, k) && TopAt(scanned, end, view, snap, own, m) &&
                          start <= k && start <= m :: k == m
    ensures forall k | TopAt(scanned, start, view, snap, own, k) :: scanned[k].rowid < scanned[start].rowid
  {
    assert forall k | 0 <= k < start :: scanned[k].rowid <= scanned[start - 1].rowid;
  }
}
