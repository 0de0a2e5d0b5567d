/** The statement loops of `execute_write`: which rows an UPDATE or DELETE locks, re-checks and
    rewrites, and what its write batch does to the stored versions. */
module WritePath {
  import opened Base
  import opened Visibility
  import opened Mvcc

  /** One put of the batch: the version of row `r` created by `xmin`. */
  datatype Put = Put(r: RowId, xmin: Xid, version: Version)

  type Versions = map<RowId, map<Xid, Version>>

  /** The stored versions of a row; a row never written has none. */
  function Stored(rows: Versions, r: RowId): map<Xid, Version> { if r in rows then rows[r] else map[] }

  function ApplyPut(rows: Versions, p: Put): Versions {
    rows[p.r := Stored(rows, p.r)[p.xmin := p.version]]
  }

  function ApplyPuts(rows: Versions, ps: seq<Put>): Versions {
    if ps == [] then rows else ApplyPut(ApplyPuts(rows, ps[..|ps| - 1]), ps[|ps| - 1])
  }

  /** What happens to one candidate once it matches: its lock is refused (a deadlock), or granted
      and the row re-checked; `row` is the tuple the re-check found. */
  datatype Meeting = Meeting(granted: bool, recheck: Recheck, row: Tuple)

  /** `Eval` carries the SQLSTATE an expression failed with. */
  datatype WriteError = Deadlock | Serialization | Eval(code: string)

  type Evaluated<T> = Result<T, string>

  /** An UPDATE computes the new tuple from the current one; a DELETE has none. */
  datatype Change = Change(filter: Tuple -> Evaluated<bool>, assign: Option<Tuple -> Evaluated<Tuple>>)

  datatype Candidate = Candidate(r: RowId, scanned: Tuple)

  /** The candidate's row is rewritten: it matched when scanned and still matches as re-checked. */
  predicate Rewritten(ch: Change, c: Candidate, m: Meeting) {
    ch.filter(c.scanned) == Ok(true) && m.granted && m.recheck.Operate? && ch.filter(m.row) == Ok(true)
  }

  /** The change computes its new tuple. */
  predicate Computes(ch: Change, row: Tuple) { ch.assign.Some? ==> ch.assign.value(row).Ok? }

  /** The candidate does not end the statement: it did not match, was passed over after its
      re-check, or was rewritten. */
  predicate GoesOn(ch: Change, c: Candidate, m: Meeting) {
    || ch.filter(c.scanned) == Ok(false)
    || (ch.filter(c.scanned) == Ok(true) && m.granted &&
        (|| m.recheck.Skip?
         || (m.recheck.Operate? && (ch.filter(m.row) == Ok(false) || (ch.filter(m.row) == Ok(true) && Computes(ch, m.row))))))
  }

  /** The versions of a rewritten row. */
  function NewVersions(ch: Change, vs: map<Xid, Version>, x: Xid, m: Meeting): map<Xid, Version>
    requires m.recheck.Operate? && m.recheck.xmin in vs && Computes(ch, m.row)
  {
    if ch.assign.Some? then Superseded(vs, x, m.recheck.xmin, ch.assign.value(m.row).value)
    else vs[m.recheck.xmin := vs[m.recheck.xmin].(xmax := x)]
  }

  /** The puts for one rewritten row. */
  function RowPuts(ch: Change, x: Xid, r: RowId, m: Meeting): seq<Put>
    requires m.recheck.Operate? && Computes(ch, m.row)
  {
    var cur := m.recheck.xmin;
    if ch.assign.None? then [Put(r, cur, Version(x, m.row))]
    else if cur == x then [Put(r, x, Version(INVALID_XID, ch.assign.value(m.row).value))]
    else [Put(r, cur, Version(x, m.row)), Put(r, x, Version(INVALID_XID, ch.assign.value(m.row).value))]
  }

  /** The re-check found the version it reports. */
  ghost predicate Found(rows: Versions, r: RowId, m: Meeting) {
    m.recheck.Operate? ==> r in rows && m.recheck.xmin in rows[r] && rows[r][m.recheck.xmin].row == m.row
  }

  /** The puts of one row change that row as the write step says, and no other. */
  lemma RowPutsExact(ch: Change, rows: Versions, x: Xid, r: RowId, m: Meeting)
    requires m.recheck.Operate? && Found(rows, r, m) && Computes(ch, m.row)
    ensures ApplyPuts(rows, RowPuts(ch, x, r, m)) == rows[r := NewVersions(ch, rows[r], x, m)]
  {
    var ps := RowPuts(ch, x, r, m);
    assert ps[..0] == [];
    if |ps| == 2 {
      assert ps[..1][..0] == [] && ps[..1] == [ps[0]];
      var once := ApplyPut(rows, ps[0]);
      assert ApplyPuts(rows, ps[..1]) == once;
      assert once[r] == rows[r][m.recheck.xmin := rows[r][m.recheck.xmin].(xmax := x)];
      assert ApplyPuts(rows, ps) == ApplyPut(once, ps[1]);
      assert ApplyPut(once, ps[1])[r] == NewVersions(ch, rows[r], x, m);
    }
  }

  lemma {:induction false} ApplyConcat(rows: Versions, a: seq<Put>, b: seq<Put>)
    ensures ApplyPuts(rows, a + b) == ApplyPuts(ApplyPuts(rows, a), b)
  {
    if b == [] {
      assert a + b == a;
    } else {
      assert (a + b)[..|a + b| - 1] == a + b[..|b| - 1];
      ApplyConcat(rows, a, b[..|b| - 1]);
    }
  }

  /** What the first `n` candidates have done to the stored versions. */
  ghost predicate Effect(ch: Change, rows: Versions, rows': Versions, x: Xid, cs: seq<Candidate>, ms: seq<Meeting>, n: nat)
    requires n <= |cs| == |ms|
  {
    && rows'.Keys == rows.Keys
    && (forall r | r in rows && (forall i | 0 <= i < n && Rewritten(ch, cs[i], ms[i]) :: cs[i].r != r) :: rows'[r] == rows[r])
    && (forall i | 0 <= i < n && Rewritten(ch, cs[i], ms[i]) ::
          cs[i].r in rows && ms[i].recheck.xmin in rows[cs[i].r] && Computes(ch, ms[i].row) &&
          rows'[cs[i].r] == NewVersions(ch, rows[cs[i].r], x, ms[i]))
  }

  function Affected(ch: Change, cs: seq<Candidate>, ms: seq<Meeting>, n: nat): nat
    requires n <= |cs| == |ms|
  {
    if n == 0 then 0 else Affected(ch, cs, ms, n - 1) + if Rewritten(ch, cs[n - 1], ms[n - 1]) then 1 else 0
  }

  /** How many candidates are rewritten. */
  lemma {:induction false} AffectedCounts(ch: Change, cs: seq<Candidate>, ms: seq<Meeting>, n: nat)
    requires n <= |cs| == |ms|
    ensures Affected(ch, cs, ms, n) == |set i | 0 <= i < n && Rewritten(ch, cs[i], ms[i])|
  {
    if n > 0 {
      AffectedCounts(ch, cs, ms, n - 1);
      var before := set i | 0 <= i < n - 1 && Rewritten(ch, cs[i], ms[i]);
      var now := set i | 0 <= i < n && Rewritten(ch, cs[i], ms[i]);
      assert now == if Rewritten(ch, cs[n - 1], ms[n - 1]) then before + {n - 1} else before;
    }
  }

  /** The loop after `n` candidates. */
  ghost predicate Done(ch: Change, rows: Versions, puts: seq<Put>, x: Xid, cs: seq<Candidate>, ms: seq<Meeting>, n: nat) {
    && n <= |cs| == |ms|
    && (forall i | 0 <= i < n :: GoesOn(ch, cs[i], ms[i]))
    && Effect(ch, rows, ApplyPuts(rows, puts), x, cs, ms, n)
  }

  /** The error a candidate ends the statement with. */
  predicate FailsAs(ch: Change, c: Candidate, m: Meeting, e: WriteError) {
    match e
    case Deadlock => ch.filter(c.scanned) == Ok(true) && !m.granted
    case Serialization => ch.filter(c.scanned) == Ok(true) && m.granted && m.recheck == SerializationFailure
    case Eval(code) =>
      || ch.filter(c.scanned) == Err(code)
      || (ch.filter(c.scanned) == Ok(true) && m.granted && m.recheck.Operate? &&
          (ch.filter(m.row) == Err(code) ||
           (ch.filter(m.row) == Ok(true) && ch.assign.Some? && ch.assign.value(m.row) == Err(code))))
  }

  /** One turn of the loop: the error the candidate ends the statement with, or its puts if its
      row is rewritten. */
  method Visit(ch: Change, x: Xid, c: Candidate, m: Meeting) returns (r: Result<Option<seq<Put>>, WriteError>)
    ensures r.Ok? <==> GoesOn(ch, c, m)
    ensures r.Err? ==> FailsAs(ch, c, m, r.error)
    ensures r.Ok? ==> r.value == if Rewritten(ch, c, m) then Some(RowPuts(ch, x, c.r, m)) else None
  {
    var matches := ch.filter(c.scanned);
    if matches.Err? { return Err(Eval(matches.error)); }
    if !matches.value { return Ok(None); }
    if !m.granted { return Err(Deadlock); }
    match m.recheck
    case SerializationFailure => return Err(Serialization);
    case Skip => return Ok(None);
    case Operate(cur) =>
      var still := ch.filter(m.row);
      if still.Err? { return Err(Eval(still.error)); }
      if !still.value { return Ok(None); }
      if ch.assign.Some? {
        var next := ch.assign.value(m.row);
        if next.Err? { return Err(Eval(next.error)); }
      }
      r := Ok(Some(RowPuts(ch, x, c.r, m)));
  }

  /** The loops proper: up to the first candidate that does not go on. */
  method WriteLoop(ch: Change, x: Xid, cs: seq<Candidate>, ms: seq<Meeting>, ghost rows: Versions)
    returns (r: Result<(nat, seq<Put>), WriteError>, ghost n: nat)
    requires |ms| == |cs| && forall i, j | 0 <= i < j < |cs| :: cs[i].r < cs[j].r
    requires forall i | 0 <= i < |cs| :: Found(rows, cs[i].r, ms[i])
    ensures n <= |cs| && (forall i | 0 <= i < n :: GoesOn(ch, cs[i], ms[i]))
    ensures r.Ok? ==> n == |cs| && Done(ch, rows, r.value.1, x, cs, ms, n) && r.value.0 == Affected(ch, cs, ms, n)
    ensures r.Err? ==> n < |cs| && FailsAs(ch, cs[n], ms[n], r.error)
  {
    var puts: seq<Put> := [];
    var count := 0;
    for i := 0 to |cs|
      invariant Done(ch, rows, puts, x, cs, ms, i) && count == Affected(ch, cs, ms, i)
    {
      var met := Visit(ch, x, cs[i], ms[i]);
      if met.Err? { return Err(met.error), i; }
      if met.value.None? { continue; }
      EffectOneMore(ch, rows, puts, x, cs, ms, i);
      puts := puts + met.value.value;
      count := count + 1;
    }
    return Ok((count, puts)), |cs|;
  }

  /** The UPDATE and DELETE statements. One succeeds exactly when every matching candidate gets
      its lock, passes its re-check and evaluates; otherwise it fails as the first one that does
      not. On success the batch marks or supersedes the version each re-check found, of exactly
      the rows matching both as scanned and as re-checked, and counts them. */
  method RunWrite(ch: Change, x: Xid, cs: seq<Candidate>, ms: seq<Meeting>, ghost rows: Versions)
    returns (r: Result<(nat, seq<Put>), WriteError>)
    requires |ms| == |cs| && forall i, j | 0 <= i < j < |cs| :: cs[i].r < cs[j].r
    requires forall i | 0 <= i < |cs| :: Found(rows, cs[i].r, ms[i])
    ensures r.Ok? <==> forall i | 0 <= i < |cs| && ch.filter(cs[i].scanned) != Ok(false) ::
                         && ch.filter(cs[i].scanned).Ok? && ms[i].granted && ms[i].recheck != SerializationFailure
                         && (ms[i].recheck.Operate? && ch.filter(ms[i].row) != Ok(false) ==>
                               ch.filter(ms[i].row).Ok? && (ch.assign.None? || ch.assign.value(ms[i].row).Ok?))
    ensures r == Err(Deadlock) <==>
            exists i :: 0 <= i < |cs| && ch.filter(cs[i].scanned) == Ok(true) && !ms[i].granted &&
                        forall j | 0 <= j < i :: GoesOn(ch, cs[j], ms[j])
    ensures r == Err(Serialization) <==>
            exists i :: 0 <= i < |cs| && ch.filter(cs[i].scanned) == Ok(true) && ms[i].granted &&
                        ms[i].recheck == SerializationFailure && forall j | 0 <= j < i :: GoesOn(ch, cs[j], ms[j])
    ensures forall code ::
              r == Err(Eval(code)) <==>
              exists i :: 0 <= i < |cs| && (forall j | 0 <= j < i :: GoesOn(ch, cs[j], ms[j])) &&
                          (|| ch.filter(cs[i].scanned) == Err(code)
                           || (ch.filter(cs[i].scanned) == Ok(true) && ms[i].granted && ms[i].recheck.Operate? &&
                               (|| ch.filter(ms[i].row) == Err(code)
                                || (ch.filter(ms[i].row) == Ok(true) && ch.assign.Some? &&
                                    ch.assign.value(ms[i].row) == Err(code)))))
    ensures r.Ok? ==> forall i | 0 <= i < |cs| && Found(rows, cs[i].r, ms[i]) ::
              ch.filter(cs[i].scanned) == Ok(true) && ms[i].recheck.Operate? && ch.filter(ms[i].row) == Ok(true) ==>
              Stored(ApplyPuts(rows, r.value.1), cs[i].r) ==
              if ch.assign.None? then rows[cs[i].r][ms[i].recheck.xmin := Version(x, ms[i].row)]
              else rows[cs[i].r][ms[i].recheck.xmin := Version(x, ms[i].row)]
                   [x := Version(INVALID_XID, ch.assign.value(ms[i].row).value)]
    ensures r.Ok? ==> forall id | forall i | 0 <= i < |cs| && cs[i].r == id ::
                    ch.filter(cs[i].scanned) == Ok(false) || !ms[i].recheck.Operate? || ch.filter(ms[i].row) == Ok(false) ::
                        Stored(ApplyPuts(rows, r.value.1), id) == Stored(rows, id)
    ensures r.Ok? ==> r.value.0 == |set i | 0 <= i < |cs| && ch.filter(cs[i].scanned) == Ok(true) && ms[i].recheck.Operate? &&
                                            ch.filter(ms[i].row) == Ok(true)|
  {
    ghost var n;
    r, n := WriteLoop(ch, x, cs, ms, rows);
    OutcomeMeans(ch, cs, ms, r, n);
    if r.Ok? { EffectMeans(ch, rows, r.value.1, x, cs, ms); }
  }

  lemma OutcomeMeans(ch: Change, cs: seq<Candidate>, ms: seq<Meeting>, r: Result<(nat, seq<Put>), WriteError>, n: nat)
    requires n <= |cs| == |ms| && forall i | 0 <= i < n :: GoesOn(ch, cs[i], ms[i])
    requires if r.Ok? then n == |cs| else n < |cs| && FailsAs(ch, cs[n], ms[n], r.error)
    ensures r.Ok? <==> forall i | 0 <= i < |cs| && ch.filter(cs[i].scanned) != Ok(false) ::
                         && ch.filter(cs[i].scanned).Ok? && ms[i].granted && ms[i].recheck != SerializationFailure
                         && (ms[i].recheck.Operate? && ch.filter(ms[i].row) != Ok(false) ==>
                               ch.filter(ms[i].row).Ok? && (ch.assign.None? || ch.assign.value(ms[i].row).Ok?))
    ensures r == Err(Deadlock) <==>
            exists i :: 0 <= i < |cs| && ch.filter(cs[i].scanned) == Ok(true) && !ms[i].granted &&
                        forall j | 0 <= j < i :: GoesOn(ch, cs[j], ms[j])
    ensures r == Err(Serialization) <==>
            exists i :: 0 <= i < |cs| && ch.filter(cs[i].scanned) == Ok(true) && ms[i].granted &&
                        ms[i].recheck == SerializationFailure && forall j | 0 <= j < i :: GoesOn(ch, cs[j], ms[j])
    ensures forall code ::
              r == Err(Eval(code)) <==>
              exists i :: 0 <= i < |cs| && (forall j | 0 <= j < i :: GoesOn(ch, cs[j], ms[j])) &&
                          (|| ch.filter(cs[i].scanned) == Err(code)
                           || (ch.filter(cs[i].scanned) == Ok(true) && ms[i].granted && ms[i].recheck.Operate? &&
                               (|| ch.filter(ms[i].row) == Err(code)
                                || (ch.filter(ms[i].row) == Ok(true) && ch.assign.Some? &&
                                    ch.assign.value(ms[i].row) == Err(code)))))
  {
    assert forall i | 0 <= i < |cs| :: (exists e :: FailsAs(ch, cs[i], ms[i], e)) ==> !GoesOn(ch, cs[i], ms[i]);
  }

  lemma EffectMeans(ch: Change, rows: Versions, puts: seq<Put>, x: Xid, cs: seq<Candidate>, ms: seq<Meeting>)
    requires Done(ch, rows, puts, x, cs, ms, |cs|)
    ensures forall i | 0 <= i < |cs| && Found(rows, cs[i].r, ms[i]) ::
              ch.filter(cs[i].scanned) == Ok(true) && ms[i].recheck.Operate? && ch.filter(ms[i].row) == Ok(true) ==>
              Stored(ApplyPuts(rows, puts), cs[i].r) ==
              if ch.assign.None? then rows[cs[i].r][ms[i].recheck.xmin := Version(x, ms[i].row)]
              else rows[cs[i].r][ms[i].recheck.xmin := Version(x, ms[i].row)]
                   [x := Version(INVALID_XID, ch.assign.value(ms[i].row).value)]
    ensures forall id | forall i | 0 <= i < |cs| && cs[i].r == id ::
                    ch.filter(cs[i].scanned) == Ok(false) || !ms[i].recheck.Operate? || ch.filter(ms[i].row) == Ok(false) ::
                        Stored(ApplyPuts(rows, puts), id) == Stored(rows, id)
    ensures Affected(ch, cs, ms, |cs|) ==
            |set i | 0 <= i < |cs| && ch.filter(cs[i].scanned) == Ok(true) && ms[i].recheck.Operate? &&
                     ch.filter(ms[i].row) == Ok(true)|
  {
    AffectedCounts(ch, cs, ms, |cs|);
    SameSet(ch, cs, ms);
  }

  /** With every candidate passed, the lock is granted wherever the row matched. */
  lemma SameSet(ch: Change, cs: seq<Candidate>, ms: seq<Meeting>)
    requires |cs| == |ms| && forall i | 0 <= i < |cs| :: GoesOn(ch, cs[i], ms[i])
    ensures (set i | 0 <= i < |cs| && Rewritten(ch, cs[i], ms[i])) ==
            (set i | 0 <= i < |cs| && ch.filter(cs[i].scanned) == Ok(true) && ms[i].recheck.Operate? &&
                     ch.filter(ms[i].row) == Ok(true))
  {
  }

  lemma EffectOneMore(ch: Change, rows: Versions, puts: seq<Put>, x: Xid, cs: seq<Candidate>, ms: seq<Meeting>, i: nat)
    requires i < |cs| == |ms| && (forall a, b | 0 <= a < b < |cs| :: cs[a].r < cs[b].r)
    requires Found(rows, cs[i].r, ms[i]) && Rewritten(ch, cs[i], ms[i]) && Computes(ch, ms[i].row)
    requires Effect(ch, rows, ApplyPuts(rows, puts), x, cs, ms, i)
    ensures Effect(ch, rows, ApplyPuts(rows, puts + RowPuts(ch, x, cs[i].r, ms[i])), x, cs, ms, i + 1)
  {
    var rows' := ApplyPuts(rows, puts);
    EffectStep(ch, rows, rows', x, cs, ms, i);
    ApplyConcat(rows, puts, RowPuts(ch, x, cs[i].r, ms[i]));
    RowPutsExact(ch, rows', x, cs[i].r, ms[i]);
  }

  /** Earlier candidates are other rows, so the row is still as it was. */
  lemma EffectStep(ch: Change, rows: Versions, rows': Versions, x: Xid, cs: seq<Candidate>, ms: seq<Meeting>, i: nat)
    requires i < |cs| == |ms| && (forall a, b | 0 <= a < b < |cs| :: cs[a].r < cs[b].r)
    requires Found(rows, cs[i].r, ms[i]) && Rewritten(ch, cs[i], ms[i]) && Computes(ch, ms[i].row)
    requires Effect(ch, rows, rows', x, cs, ms, i)
    ensures cs[i].r in rows' && rows'[cs[i].r] == rows[cs[i].r]
    ensures Effect(ch, rows, rows'[cs[i].r := NewVersions(ch, rows[cs[i].r], x, ms[i])], x, cs, ms, i + 1)
  {
    assert forall a | 0 <= a < i :: cs[a].r != cs[i].r;
  }
}
