/** Nested-loop joins: the loops with their `right_matched` array, the algebra of outer joins, and
    the reshaping of USING and NATURAL joins. */
module Join {
  import opened Base
  import opened Datums

  datatype JoinKind = Inner | Cross | Left | Right | Full

  /** The join condition on a left and a right row, or the error of evaluating it. */
  type On<!E> = (Row, Row) -> Result<bool, E>

  predicate WantLeft(kind: JoinKind) { kind == Left || kind == Full }
  predicate WantRight(kind: JoinKind) { kind == Right || kind == Full }

  function Nulls(n: nat): (r: Row)
    ensures |r| == n && forall i | 0 <= i < n :: r[i] == Null
  {
    seq(n, i => Null)
  }

  // ---- What a join is -------------------------------------------------------------------------

  predicate Match<E>(on: On<E>, l: Row, r: Row) { on(l, r) == Ok(true) }

  /** The joined rows of one left row. */
  function Matches<E>(on: On<E>, l: Row, rs: seq<Row>): seq<Row> {
    if rs == [] then []
    else Matches(on, l, rs[..|rs| - 1]) + if Match(on, l, rs[|rs| - 1]) then [l + rs[|rs| - 1]] else []
  }

  function InnerRows<E>(on: On<E>, ls: seq<Row>, rs: seq<Row>): seq<Row> {
    if ls == [] then [] else InnerRows(on, ls[..|ls| - 1], rs) + Matches(on, ls[|ls| - 1], rs)
  }

  /** The left rows that match no right row. */
  function LoneLeft<E>(on: On<E>, ls: seq<Row>, rs: seq<Row>): seq<Row> {
    if ls == [] then []
    else LoneLeft(on, ls[..|ls| - 1], rs) + if Matches(on, ls[|ls| - 1], rs) == [] then [ls[|ls| - 1]] else []
  }

  predicate MatchedBy<E>(on: On<E>, ls: seq<Row>, r: Row) { exists i :: 0 <= i < |ls| && Match(on, ls[i], r) }

  /** The right rows that no left row matches. */
  function LoneRight<E>(on: On<E>, ls: seq<Row>, rs: seq<Row>): seq<Row> {
    if rs == [] then []
    else LoneRight(on, ls, rs[..|rs| - 1]) + if MatchedBy(on, ls, rs[|rs| - 1]) then [] else [rs[|rs| - 1]]
  }

  function PadRight(rows: seq<Row>, w: nat): (out: seq<Row>)
    ensures |out| == |rows| && forall i | 0 <= i < |rows| :: out[i] == rows[i] + Nulls(w)
  {
    seq(|rows|, i requires 0 <= i < |rows| => rows[i] + Nulls(w))
  }

  function PadLeft(rows: seq<Row>, w: nat): (out: seq<Row>)
    ensures |out| == |rows| && forall i | 0 <= i < |rows| :: out[i] == Nulls(w) + rows[i]
  {
    seq(|rows|, i requires 0 <= i < |rows| => Nulls(w) + rows[i])
  }

  /** The error of the first pair, in row order, whose condition fails to evaluate. */
  function RowError<E>(on: On<E>, l: Row, rs: seq<Row>): Option<E> {
    if rs == [] then None
    else
      var e := RowError(on, l, rs[..|rs| - 1]);
      if e.Some? then e else match on(l, rs[|rs| - 1]) case Err(x) => Some(x) case Ok(_) => None
  }

  function FirstError<E>(on: On<E>, ls: seq<Row>, rs: seq<Row>): Option<E> {
    if ls == [] then None
    else
      var e := FirstError(on, ls[..|ls| - 1], rs);
      if e.Some? then e else RowError(on, ls[|ls| - 1], rs)
  }

  // ---- The loops ------------------------------------------------------------------------------

  /** Inner loop: one left row against every right row, marking the right rows it meets. */
  method JoinRow<E>(on: On<E>, l: Row, rs: seq<Row>, matched: array<bool>, ghost done: seq<Row>)
    returns (rows: seq<Row>, error: Option<E>)
    requires matched.Length == |rs|
    requires forall j | 0 <= j < |rs| :: matched[j] <==> MatchedBy(on, done, rs[j])
    modifies matched
    ensures error == RowError(on, l, rs)
    ensures error.None? ==> rows == Matches(on, l, rs)
    ensures error.None? ==> forall j | 0 <= j < |rs| :: matched[j] <==> MatchedBy(on, done + [l], rs[j])
  {
    rows := [];
    for j := 0 to |rs|
      invariant rows == Matches(on, l, rs[..j]) && RowError(on, l, rs[..j]).None?
      invariant forall k | 0 <= k < j :: matched[k] <==> MatchedBy(on, done + [l], rs[k])
      invariant forall k | j <= k < |rs| :: matched[k] <==> MatchedBy(on, done, rs[k])
    {
      assert rs[..j + 1][..j] == rs[..j];
      MatchedByOneMore(on, done, l, rs[j]);
      match on(l, rs[j])
      case Err(e) =>
        RowErrorStays(on, l, rs, j + 1);
        return rows, Some(e);
      case Ok(b) =>
        if b {
          matched[j] := true;
          rows := rows + [l + rs[j]];
        }
    }
    assert rs[..|rs|] == rs;
    error := None;
  }

  lemma MatchedByOneMore<E>(on: On<E>, ls: seq<Row>, l: Row, r: Row)
    ensures MatchedBy(on, ls + [l], r) <==> MatchedBy(on, ls, r) || Match(on, l, r)
  {
    if MatchedBy(on, ls, r) {
      var i :| 0 <= i < |ls| && Match(on, ls[i], r);
      assert (ls + [l])[i] == ls[i];
    }
    if Match(on, l, r) { assert (ls + [l])[|ls|] == l; }
  }

  lemma {:induction false} RowErrorStays<E>(on: On<E>, l: Row, rs: seq<Row>, n: nat)
    requires n <= |rs| && RowError(on, l, rs[..n]).Some?
    ensures RowError(on, l, rs) == RowError(on, l, rs[..n])
    decreases |rs|
  {
    if n == |rs| {
      assert rs[..n] == rs;
    } else {
      assert rs[..|rs| - 1][..n] == rs[..n];
      RowErrorStays(on, l, rs[..|rs| - 1], n);
    }
  }

  lemma {:induction false} FirstErrorStays<E>(on: On<E>, ls: seq<Row>, rs: seq<Row>, n: nat)
    requires n <= |ls| && FirstError(on, ls[..n], rs).Some?
    ensures FirstError(on, ls, rs) == FirstError(on, ls[..n], rs)
    decreases |ls|
  {
    if n == |ls| {
      assert ls[..n] == ls;
    } else {
      assert ls[..|ls| - 1][..n] == ls[..n];
      FirstErrorStays(on, ls[..|ls| - 1], rs, n);
    }
  }

  /** The rows of the left pass: each left row's matches, or the row padded when it has none. */
  function LeftPass<E>(on: On<E>, wantLeft: bool, ls: seq<Row>, rs: seq<Row>, rw: nat): seq<Row> {
    if ls == [] then []
    else
      var l := ls[|ls| - 1];
      var ms := Matches(on, l, rs);
      LeftPass(on, wantLeft, ls[..|ls| - 1], rs, rw) + if ms == [] && wantLeft then [l + Nulls(rw)] else ms
  }

  /** The row loops of `join_relations`. */
  method JoinRows<E>(kind: JoinKind, on: On<E>, ls: seq<Row>, rs: seq<Row>, lw: nat, rw: nat)
    returns (r: Result<seq<Row>, E>)
    ensures FirstError(on, ls, rs).Some? ==> r == Err(FirstError(on, ls, rs).value)
    ensures FirstError(on, ls, rs).None? ==>
              r == Ok(Joined(kind, on, ls, rs, lw, rw))
  {
    var rows: seq<Row> := [];
    var matched := new bool[|rs|](_ => false);
    for i := 0 to |ls|
      invariant matched.Length == |rs| && fresh(matched)
      invariant rows == LeftPass(on, WantLeft(kind), ls[..i], rs, rw) && FirstError(on, ls[..i], rs).None?
      invariant forall j | 0 <= j < |rs| :: matched[j] <==> MatchedBy(on, ls[..i], rs[j])
    {
      assert ls[..i + 1][..i] == ls[..i] && ls[..i + 1] == ls[..i] + [ls[i]];
      var found, error := JoinRow(on, ls[i], rs, matched, ls[..i]);
      if error.Some? {
        FirstErrorStays(on, ls, rs, i + 1);
        return Err(error.value);
      }
      if found == [] && WantLeft(kind) {
        rows := rows + [ls[i] + Nulls(rw)];
      } else {
        rows := rows + found;
      }
    }
    assert ls[..|ls|] == ls;
    if WantRight(kind) {
      var lone := PadLone(on, ls, rs, matched, lw);
      rows := rows + lone;
    } else {
      assert rows + [] == rows;
    }
    r := Ok(rows);
  }

  /** The last loop: the right rows that no left row met, padded. */
  method PadLone<E>(ghost on: On<E>, ghost ls: seq<Row>, rs: seq<Row>, matched: array<bool>, lw: nat) returns (rows: seq<Row>)
    requires matched.Length == |rs| && forall j | 0 <= j < |rs| :: matched[j] <==> MatchedBy(on, ls, rs[j])
    ensures rows == PadLeft(LoneRight(on, ls, rs), lw)
  {
    rows := [];
    for j := 0 to |rs|
      invariant rows == PadLeft(LoneRight(on, ls, rs[..j]), lw)
    {
      assert rs[..j + 1][..j] == rs[..j];
      if !matched[j] {
        PadLeftOneMore(LoneRight(on, ls, rs[..j]), rs[j], lw);
        rows := rows + [Nulls(lw) + rs[j]];
      }
    }
    assert rs[..|rs|] == rs;
  }

  lemma PadLeftOneMore(rows: seq<Row>, r: Row, w: nat)
    ensures PadLeft(rows + [r], w) == PadLeft(rows, w) + [Nulls(w) + r]
  {}

  // ---- The algebra ----------------------------------------------------------------------------

  /** The rows a join returns. */
  function Joined<E>(kind: JoinKind, on: On<E>, ls: seq<Row>, rs: seq<Row>, lw: nat, rw: nat): seq<Row> {
    LeftPass(on, WantLeft(kind), ls, rs, rw) + if WantRight(kind) then PadLeft(LoneRight(on, ls, rs), lw) else []
  }

  lemma {:induction false} LeftPassSplits<E>(on: On<E>, wantLeft: bool, ls: seq<Row>, rs: seq<Row>, rw: nat)
    ensures multiset(LeftPass(on, wantLeft, ls, rs, rw)) ==
            multiset(InnerRows(on, ls, rs)) + if wantLeft then multiset(PadRight(LoneLeft(on, ls, rs), rw)) else multiset{}
  {
    if ls != [] {
      var n := |ls| - 1;
      LeftPassSplits(on, wantLeft, ls[..n], rs, rw);
      if Matches(on, ls[n], rs) == [] {
        var lone := LoneLeft(on, ls[..n], rs);
        assert PadRight(lone + [ls[n]], rw) == PadRight(lone, rw) + [ls[n] + Nulls(rw)];
      } else {
        assert LoneLeft(on, ls, rs) == LoneLeft(on, ls[..n], rs);
      }
    }
  }

  /** OUTER-JOIN ALGEBRA: FULL is INNER plus the null-padded unmatched left rows plus the
      null-padded unmatched right rows, as multisets; LEFT and RIGHT take one of the two. */
  lemma JoinAlgebra<E>(kind: JoinKind, on: On<E>, ls: seq<Row>, rs: seq<Row>, lw: nat, rw: nat)
    ensures multiset(Joined(kind, on, ls, rs, lw, rw)) ==
            multiset(InnerRows(on, ls, rs)) +
            (if kind == Left || kind == Full then multiset(PadRight(LoneLeft(on, ls, rs), rw)) else multiset{}) +
            (if kind == Right || kind == Full then multiset(PadLeft(LoneRight(on, ls, rs), lw)) else multiset{})
  {
    LeftPassSplits(on, WantLeft(kind), ls, rs, rw);
  }

  // ---- The rows by position -------------------------------------------------------------------

  ghost function MatchAt<E>(on: On<E>, l: Row, rs: seq<Row>): nat -> bool {
    (j: nat) => j < |rs| && on(l, rs[j]) == Ok(true)
  }

  ghost predicate JoinsAt(l: Row, rs: seq<Row>, at: seq<nat>, rows: seq<Row>) {
    |rows| == |at| && forall x | 0 <= x < |at| :: at[x] < |rs| && rows[x] == l + rs[at[x]]
  }

  lemma {:induction false} MatchesListed<E>(on: On<E>, l: Row, rs: seq<Row>, n: nat) returns (at: seq<nat>)
    requires n <= |rs|
    ensures Listing(at, n, MatchAt(on, l, rs)) && JoinsAt(l, rs, at, Matches(on, l, rs[..n]))
  {
    at := [];
    if n > 0 {
      at := MatchesListed(on, l, rs, n - 1);
      at := MatchesMore(on, l, rs, at, Matches(on, l, rs[..n - 1]), n - 1);
      MatchesStep(on, l, rs, n - 1);
    }
  }

  lemma MatchesStep<E>(on: On<E>, l: Row, rs: seq<Row>, n: nat)
    requires n < |rs|
    ensures Matches(on, l, rs[..n + 1]) == Matches(on, l, rs[..n]) + if on(l, rs[n]) == Ok(true) then [l + rs[n]] else []
  {
    assert rs[..n + 1][..n] == rs[..n];
  }

  lemma MatchesMore<E>(on: On<E>, l: Row, rs: seq<Row>, before: seq<nat>, rows: seq<Row>, n: nat) returns (at: seq<nat>)
    requires n < |rs| && Listing(before, n, MatchAt(on, l, rs)) && JoinsAt(l, rs, before, rows)
    ensures Listing(at, n + 1, MatchAt(on, l, rs))
    ensures JoinsAt(l, rs, at, rows + if on(l, rs[n]) == Ok(true) then [l + rs[n]] else [])
  {
    var here := MatchAt(on, l, rs);
    assert here(n) == (on(l, rs[n]) == Ok(true));
    at := if here(n) then before + [n] else before;
    ListingStep(before, n, here);
    assert !here(n) ==> rows + [] == rows;
  }

  /** The pairs come by left row, then by right row, each once. */
  ghost predicate Ascending(ps: seq<(nat, nat)>) {
    forall x, y | 0 <= x < y < |ps| :: ps[x].0 < ps[y].0 || (ps[x].0 == ps[y].0 && ps[x].1 < ps[y].1)
  }

  /** `ps` is exactly the pairs of row positions whose condition is true, of the first `n` left rows. */
  ghost predicate Pairs<E>(on: On<E>, ls: seq<Row>, rs: seq<Row>, n: nat, ps: seq<(nat, nat)>)
    requires n <= |ls|
  {
    && Ascending(ps)
    && (forall x | 0 <= x < |ps| :: ps[x].0 < n && ps[x].1 < |rs| && on(ls[ps[x].0], rs[ps[x].1]) == Ok(true))
    && (forall i: nat, j: nat | i < n && j < |rs| && on(ls[i], rs[j]) == Ok(true) :: (i, j) in ps)
  }

  ghost predicate PairedRows(ls: seq<Row>, rs: seq<Row>, ps: seq<(nat, nat)>, rows: seq<Row>) {
    && |rows| == |ps|
    && forall x | 0 <= x < |ps| :: ps[x].0 < |ls| && ps[x].1 < |rs| && rows[x] == ls[ps[x].0] + rs[ps[x].1]
  }

  ghost function RowPairs(i: nat, at: seq<nat>): (ps: seq<(nat, nat)>)
    ensures |ps| == |at| && forall x | 0 <= x < |at| :: ps[x] == (i, at[x])
  {
    seq(|at|, x requires 0 <= x < |at| => (i, at[x]))
  }

  lemma PairsMore<E>(on: On<E>, ls: seq<Row>, rs: seq<Row>, n: nat, ps: seq<(nat, nat)>, at: seq<nat>)
    requires n < |ls| && Pairs(on, ls, rs, n, ps) && Listing(at, |rs|, MatchAt(on, ls[n], rs))
    ensures Pairs(on, ls, rs, n + 1, ps + RowPairs(n, at))
  {
    var more, here := ps + RowPairs(n, at), MatchAt(on, ls[n], rs);
    forall x | |ps| <= x < |more| ensures more[x].0 == n && more[x].1 < |rs| && on(ls[n], rs[more[x].1]) == Ok(true) {
      assert more[x] == (n, at[x - |ps|]) && here(at[x - |ps|]);
    }
    forall i: nat, j: nat | i < n + 1 && j < |rs| && on(ls[i], rs[j]) == Ok(true) ensures (i, j) in more {
      if i == n {
        assert here(j) && j in at;
        var x :| 0 <= x < |at| && at[x] == j;
        assert RowPairs(n, at)[x] == (i, j);
      } else {
        assert (i, j) in ps;
      }
    }
  }

  lemma PairedMore(ls: seq<Row>, rs: seq<Row>, n: nat, ps: seq<(nat, nat)>, rows: seq<Row>, at: seq<nat>, found: seq<Row>)
    requires n < |ls| && PairedRows(ls, rs, ps, rows) && JoinsAt(ls[n], rs, at, found)
    ensures PairedRows(ls, rs, ps + RowPairs(n, at), rows + found)
  {
    var more := ps + RowPairs(n, at);
    forall x | |ps| <= x < |more| ensures more[x].1 < |rs| && (rows + found)[x] == ls[n] + rs[more[x].1] {
      assert more[x] == (n, at[x - |ps|]);
    }
  }

  /** INNER JOIN: one row for each pair of rows whose condition is true, by left row and then by
      right row, and no other. */
  lemma InnerListed<E>(on: On<E>, ls: seq<Row>, rs: seq<Row>) returns (ps: seq<(nat, nat)>)
    ensures Pairs(on, ls, rs, |ls|, ps) && PairedRows(ls, rs, ps, InnerRows(on, ls, rs))
    ensures |InnerRows(on, ls, rs)| ==
            |set i: nat, j: nat | i < |ls| && j < |rs| && on(ls[i], rs[j]) == Ok(true) :: (i, j)|
  {
    ps := InnerTo(on, ls, rs, |ls|);
    assert ls[..|ls|] == ls;
    var all := set i: nat, j: nat | i < |ls| && j < |rs| && on(ls[i], rs[j]) == Ok(true) :: (i, j);
    forall p ensures p in all <==> p in ps {}
    assert all == set p | p in ps;
    AscendingCounts(ps);
  }

  lemma {:induction false} InnerTo<E>(on: On<E>, ls: seq<Row>, rs: seq<Row>, n: nat) returns (ps: seq<(nat, nat)>)
    requires n <= |ls|
    ensures Pairs(on, ls, rs, n, ps) && PairedRows(ls, rs, ps, InnerRows(on, ls[..n], rs))
  {
    ps := [];
    if n > 0 {
      ps := InnerTo(on, ls, rs, n - 1);
      var at := MatchesListed(on, ls[n - 1], rs, |rs|);
      assert rs[..|rs|] == rs;
      PairsMore(on, ls, rs, n - 1, ps, at);
      PairedMore(ls, rs, n - 1, ps, InnerRows(on, ls[..n - 1], rs), at, Matches(on, ls[n - 1], rs));
      assert ls[..n][..n - 1] == ls[..n - 1];
      ps := ps + RowPairs(n - 1, at);
    }
  }

  lemma {:induction false} AscendingCounts(ps: seq<(nat, nat)>)
    requires Ascending(ps)
    ensures |set p | p in ps| == |ps|
  {
    if ps != [] {
      var n := |ps| - 1;
      AscendingCounts(ps[..n]);
      assert ps == ps[..n] + [ps[n]];
      assert (set p | p in ps) == (set p | p in ps[..n]) + {ps[n]};
    }
  }

  ghost predicate RowsAt(rows: seq<Row>, at: seq<nat>, out: seq<Row>) {
    |out| == |at| && forall x | 0 <= x < |at| :: at[x] < |rows| && out[x] == rows[at[x]]
  }

  /** The position of a right row that no left row matches. */
  ghost function LoneAt<E>(on: On<E>, ls: seq<Row>, rs: seq<Row>): nat -> bool {
    (j: nat) => j < |rs| && Unmatched(on, ls, rs[j])
  }

  ghost predicate Unmatched<E>(on: On<E>, ls: seq<Row>, r: Row) { forall i | 0 <= i < |ls| :: on(ls[i], r) != Ok(true) }

  lemma UnmatchedIs<E>(on: On<E>, ls: seq<Row>, r: Row)
    ensures Unmatched(on, ls, r) <==> !MatchedBy(on, ls, r)
  {
    assert forall i | 0 <= i < |ls| :: Match(on, ls[i], r) <==> on(ls[i], r) == Ok(true);
  }

  /** The unmatched right rows are exactly the rows that no left row matches, in their order;
      `LoneSwaps` gives the same of the unmatched left rows. */
  lemma {:induction false} LoneListed<E>(on: On<E>, ls: seq<Row>, rs: seq<Row>, n: nat) returns (at: seq<nat>)
    requires n <= |rs|
    ensures Listing(at, n, LoneAt(on, ls, rs)) && RowsAt(rs, at, LoneRight(on, ls, rs[..n]))
  {
    if n == 0 {
      at := [];
      assert LoneRight(on, ls, rs[..0]) == [];
    } else {
      var m := n - 1;
      var before := LoneListed(on, ls, rs, m);
      LoneStep(on, ls, rs, m);
      at := LoneMore(on, ls, rs, before, LoneRight(on, ls, rs[..m]), m);
    }
  }

  lemma LoneStep<E>(on: On<E>, ls: seq<Row>, rs: seq<Row>, n: nat)
    requires n < |rs|
    ensures LoneRight(on, ls, rs[..n + 1]) ==
            if Unmatched(on, ls, rs[n]) then LoneRight(on, ls, rs[..n]) + [rs[n]] else LoneRight(on, ls, rs[..n])
  {
    assert rs[..n + 1][..n] == rs[..n];
    UnmatchedIs(on, ls, rs[n]);
  }

  lemma LoneMore<E>(on: On<E>, ls: seq<Row>, rs: seq<Row>, before: seq<nat>, rows: seq<Row>, n: nat) returns (at: seq<nat>)
    requires n < |rs| && Listing(before, n, LoneAt(on, ls, rs)) && RowsAt(rs, before, rows)
    ensures Listing(at, n + 1, LoneAt(on, ls, rs))
    ensures RowsAt(rs, at, if Unmatched(on, ls, rs[n]) then rows + [rs[n]] else rows)
  {
    var here := LoneAt(on, ls, rs);
    assert here(n) == Unmatched(on, ls, rs[n]);
    at := if here(n) then before + [n] else before;
    ListingStep(before, n, here);
  }

  /** The error is that of the first pair, by left row and then by right row, to give one. */
  lemma {:induction false} RowErrorIs<E>(on: On<E>, l: Row, rs: seq<Row>)
    ensures match RowError(on, l, rs)
            case None => forall j | 0 <= j < |rs| :: on(l, rs[j]).Ok?
            case Some(e) => exists j :: 0 <= j < |rs| && on(l, rs[j]) == Err(e) && forall k | 0 <= k < j :: on(l, rs[k]).Ok?
  {
    if rs != [] {
      var n := |rs| - 1;
      RowErrorIs(on, l, rs[..n]);
      assert forall j | 0 <= j < n :: rs[..n][j] == rs[j];
    }
  }

  lemma {:induction false} FirstErrorIs<E>(on: On<E>, ls: seq<Row>, rs: seq<Row>)
    ensures match FirstError(on, ls, rs)
            case None => forall i, j | 0 <= i < |ls| && 0 <= j < |rs| :: on(ls[i], rs[j]).Ok?
            case Some(e) =>
              exists i, j :: && 0 <= i < |ls| && 0 <= j < |rs| && on(ls[i], rs[j]) == Err(e)
                             && (forall h, k | 0 <= h < i && 0 <= k < |rs| :: on(ls[h], rs[k]).Ok?)
                             && (forall k | 0 <= k < j :: on(ls[i], rs[k]).Ok?)
  {
    if ls != [] {
      var n := |ls| - 1;
      FirstErrorIs(on, ls[..n], rs);
      RowErrorIs(on, ls[n], rs);
      assert forall i | 0 <= i < n :: ls[..n][i] == ls[i];
    }
  }

  // ---- LEFT and RIGHT mirror each other -------------------------------------------------------

  function Flip<E>(on: On<E>): On<E> { (r: Row, l: Row) => on(l, r) }

  /** Exchange the two halves of a joined row. */
  function Swap(row: Row, lw: nat): Row { if lw <= |row| then row[lw..] + row[..lw] else row }

  function SwapAll(rows: seq<Row>, lw: nat): (out: seq<Row>)
    ensures |out| == |rows| && forall i | 0 <= i < |rows| :: out[i] == Swap(rows[i], lw)
  {
    seq(|rows|, i requires 0 <= i < |rows| => Swap(rows[i], lw))
  }

  ghost predicate Wide(rows: seq<Row>, w: nat) { forall i | 0 <= i < |rows| :: |rows[i]| == w }

  lemma {:induction false} MatchesWide<E>(on: On<E>, l: Row, rs: seq<Row>, rw: nat)
    requires Wide(rs, rw)
    ensures Wide(Matches(on, l, rs), |l| + rw)
  {
    if rs != [] { MatchesWide(on, l, rs[..|rs| - 1], rw); }
  }

  lemma {:induction false} LeftPassWide<E>(on: On<E>, wantLeft: bool, ls: seq<Row>, rs: seq<Row>, lw: nat, rw: nat)
    requires Wide(ls, lw) && Wide(rs, rw)
    ensures Wide(LeftPass(on, wantLeft, ls, rs, rw), lw + rw)
  {
    if ls != [] {
      LeftPassWide(on, wantLeft, ls[..|ls| - 1], rs, lw, rw);
      MatchesWide(on, ls[|ls| - 1], rs, rw);
    }
  }

  lemma {:induction false} LoneRightWide<E>(on: On<E>, ls: seq<Row>, rs: seq<Row>, rw: nat)
    requires Wide(rs, rw)
    ensures Wide(LoneRight(on, ls, rs), rw)
  {
    if rs != [] { LoneRightWide(on, ls, rs[..|rs| - 1], rw); }
  }

  /** Every row of a join has the width of the combined schema. */
  lemma JoinedWide<E>(kind: JoinKind, on: On<E>, ls: seq<Row>, rs: seq<Row>, lw: nat, rw: nat)
    requires Wide(ls, lw) && Wide(rs, rw)
    ensures Wide(Joined(kind, on, ls, rs, lw, rw), lw + rw)
  {
    LeftPassWide(on, WantLeft(kind), ls, rs, lw, rw);
    LoneRightWide(on, ls, rs, rw);
  }

  lemma SwapAllConcat(a: seq<Row>, b: seq<Row>, lw: nat)
    ensures SwapAll(a + b, lw) == SwapAll(a, lw) + SwapAll(b, lw)
  {}

  /** One left row against all right rows is, swapped, that row as a single right row. */
  lemma {:induction false} RowIsColumn<E>(on: On<E>, l: Row, rs: seq<Row>)
    ensures SwapAll(Matches(on, l, rs), |l|) == InnerRows(Flip(on), rs, [l])
  {
    if rs != [] {
      var n := |rs| - 1;
      RowIsColumn(on, l, rs[..n]);
      var last := if Match(on, l, rs[n]) then [l + rs[n]] else [];
      SwapAllConcat(Matches(on, l, rs[..n]), last, |l|);
      assert [l][..0] == [] && Matches(Flip(on), rs[n], [l]) == if Match(on, l, rs[n]) then [rs[n] + l] else [];
      if Match(on, l, rs[n]) {
        assert (l + rs[n])[|l|..] == rs[n] && (l + rs[n])[..|l|] == l;
        assert SwapAll(last, |l|) == [rs[n] + l];
      }
    }
  }

  /** Adding a right row adds its column of matches. */
  lemma {:induction false} InnerAddRight<E>(on: On<E>, ls: seq<Row>, rs: seq<Row>, r: Row)
    ensures multiset(InnerRows(on, ls, rs + [r])) == multiset(InnerRows(on, ls, rs)) + multiset(InnerRows(on, ls, [r]))
  {
    if ls != [] {
      var n := |ls| - 1;
      InnerAddRight(on, ls[..n], rs, r);
      assert (rs + [r])[..|rs|] == rs && [r][..0] == [];
      assert Matches(on, ls[n], rs + [r]) == Matches(on, ls[n], rs) + Matches(on, ls[n], [r]);
    }
  }

  /** Exchanging the sides of an inner join only swaps the halves of its rows. */
  lemma {:induction false} InnerSwaps<E>(on: On<E>, ls: seq<Row>, rs: seq<Row>, lw: nat)
    requires Wide(ls, lw)
    ensures multiset(SwapAll(InnerRows(on, ls, rs), lw)) == multiset(InnerRows(Flip(on), rs, ls))
  {
    if ls == [] {
      NoRight(Flip(on), rs);
    } else {
      var n := |ls| - 1;
      InnerSwaps(on, ls[..n], rs, lw);
      RowIsColumn(on, ls[n], rs);
      SwapAllConcat(InnerRows(on, ls[..n], rs), Matches(on, ls[n], rs), lw);
      InnerAddRight(Flip(on), rs, ls[..n], ls[n]);
      assert ls == ls[..n] + [ls[n]];
    }
  }

  lemma {:induction false} NoRight<E>(on: On<E>, ls: seq<Row>)
    ensures InnerRows(on, ls, []) == []
  {
    if ls != [] { NoRight(on, ls[..|ls| - 1]); }
  }

  lemma {:induction false} NoMatches<E>(on: On<E>, l: Row, rs: seq<Row>)
    ensures Matches(on, l, rs) == [] <==> !MatchedBy(Flip(on), rs, l)
  {
    if rs != [] {
      var n := |rs| - 1;
      NoMatches(on, l, rs[..n]);
      MatchedByOneMore(Flip(on), rs[..n], rs[n], l);
      assert rs == rs[..n] + [rs[n]];
    }
  }

  /** A left row without a match is a right row without a match once the sides are exchanged. */
  lemma {:induction false} LoneSwaps<E>(on: On<E>, ls: seq<Row>, rs: seq<Row>)
    ensures LoneLeft(on, ls, rs) == LoneRight(Flip(on), rs, ls)
  {
    if ls != [] {
      var n := |ls| - 1;
      LoneSwaps(on, ls[..n], rs);
      NoMatches(on, ls[n], rs);
    }
  }

  lemma SwapPadded(l: Row, lw: nat, rw: nat)
    requires |l| == lw
    ensures SwapAll([l + Nulls(rw)], lw) == [Nulls(rw) + l]
  {
    assert (l + Nulls(rw))[lw..] == Nulls(rw) && (l + Nulls(rw))[..lw] == l;
  }

  /** The left pass, swapped: the inner rows swapped, and the unmatched rows padded on the left. */
  lemma {:induction false} LeftPassSwaps<E>(on: On<E>, ls: seq<Row>, rs: seq<Row>, lw: nat, rw: nat)
    requires Wide(ls, lw)
    ensures multiset(SwapAll(LeftPass(on, true, ls, rs, rw), lw)) ==
            multiset(SwapAll(InnerRows(on, ls, rs), lw)) + multiset(PadLeft(LoneLeft(on, ls, rs), rw))
  {
    if ls != [] {
      var n := |ls| - 1;
      LeftPassSwaps(on, ls[..n], rs, lw, rw);
      var ms := Matches(on, ls[n], rs);
      SwapAllConcat(InnerRows(on, ls[..n], rs), ms, lw);
      SwapAllConcat(LeftPass(on, true, ls[..n], rs, rw), if ms == [] then [ls[n] + Nulls(rw)] else ms, lw);
      if ms == [] {
        SwapPadded(ls[n], lw, rw);
        PadLeftOneMore(LoneLeft(on, ls[..n], rs), ls[n], rw);
      } else {
        assert LoneLeft(on, ls, rs) == LoneLeft(on, ls[..n], rs);
      }
    }
  }

  /** LEFT MIRRORS RIGHT: LEFT(a, b) is RIGHT(b, a) with the columns swapped. */
  lemma LeftMirrorsRight<E>(on: On<E>, ls: seq<Row>, rs: seq<Row>, lw: nat, rw: nat)
    requires Wide(ls, lw)
    ensures multiset(SwapAll(Joined(Left, on, ls, rs, lw, rw), lw)) == multiset(Joined(Right, Flip(on), rs, ls, rw, lw))
  {
    LeftPassSwaps(on, ls, rs, lw, rw);
    InnerSwaps(on, ls, rs, lw);
    LoneSwaps(on, ls, rs);
    JoinAlgebra(Right, Flip(on), rs, ls, rw, lw);
    assert Joined(Left, on, ls, rs, lw, rw) == LeftPass(on, true, ls, rs, rw);
  }

  // ---- USING and NATURAL ------------------------------------------------------------------------

  datatype Pair = Pair(l: nat, r: nat)

  /** The positions below `n` that are not join columns. */
  function Others(n: nat, joined: seq<nat>): (out: seq<nat>)
    ensures forall k | 0 <= k < |out| :: out[k] < n && out[k] !in joined
  {
    if n == 0 then [] else Others(n - 1, joined) + if n - 1 in joined then [] else [n - 1]
  }

  ghost function NotJoined(joined: seq<nat>): nat -> bool { (i: nat) => i !in joined }

  /** The other columns are listed once each, in order, and none is missed. */
  lemma {:induction false} OthersListed(n: nat, joined: seq<nat>)
    ensures Listing(Others(n, joined), n, NotJoined(joined))
  {
    if n > 0 {
      OthersListed(n - 1, joined);
      OthersMore(n - 1, joined, Others(n - 1, joined));
    }
  }

  lemma OthersMore(n: nat, joined: seq<nat>, before: seq<nat>)
    requires Listing(before, n, NotJoined(joined))
    ensures Listing(before + if n in joined then [] else [n], n + 1, NotJoined(joined))
  {
    var here := NotJoined(joined);
    assert here(n) == (n !in joined);
    ListingStep(before, n, here);
    assert !here(n) ==> before + [] == before;
  }

  function Pick(row: Row, at: seq<nat>): (out: Row)
    requires forall k | 0 <= k < |at| :: at[k] < |row|
    ensures |out| == |at| && forall k | 0 <= k < |at| :: out[k] == row[at[k]]
  {
    seq(|at|, k requires 0 <= k < |at| => row[at[k]])
  }

  function LeftCols(pairs: seq<Pair>): (out: seq<nat>)
    ensures |out| == |pairs| && forall i | 0 <= i < |pairs| :: out[i] == pairs[i].l
  {
    seq(|pairs|, i requires 0 <= i < |pairs| => pairs[i].l)
  }

  function RightCols(pairs: seq<Pair>): (out: seq<nat>)
    ensures |out| == |pairs| && forall i | 0 <= i < |pairs| :: out[i] == pairs[i].r
  {
    seq(|pairs|, i requires 0 <= i < |pairs| => pairs[i].r)
  }

  function Coalesce(row: Row, lw: nat, p: Pair): Datum
    requires p.l < lw <= |row| && lw + p.r < |row|
  {
    if row[p.l] == Null then row[lw + p.r] else row[p.l]
  }

  method MergeKeys(row: Row, lw: nat, pairs: seq<Pair>) returns (out: Row)
    requires lw <= |row| && forall i | 0 <= i < |pairs| :: pairs[i].l < lw && lw + pairs[i].r < |row|
    ensures |out| == |pairs| && forall i | 0 <= i < |pairs| :: out[i] == Coalesce(row, lw, pairs[i])
  {
    out := [];
    for i := 0 to |pairs|
      invariant |out| == i && forall k | 0 <= k < i :: out[k] == Coalesce(row, lw, pairs[k])
    {
      out := out + [if row[pairs[i].l] == Null then row[lw + pairs[i].r] else row[pairs[i].l]];
    }
  }

  /** The reshaped row: merged join columns, then the other left and the other right columns. */
  method CoalesceRow(row: Row, lw: nat, pairs: seq<Pair>) returns (out: Row)
    requires lw <= |row| && forall i | 0 <= i < |pairs| :: pairs[i].l < lw && lw + pairs[i].r < |row|
    ensures |out| == |pairs| + |Others(lw, LeftCols(pairs))| + |Others(|row| - lw, RightCols(pairs))|
    ensures forall i | 0 <= i < |pairs| :: out[i] == if row[pairs[i].l] == Null then row[lw + pairs[i].r] else row[pairs[i].l]
    ensures out[|pairs|..] ==
            Pick(row[..lw], Others(lw, LeftCols(pairs))) + Pick(row[lw..], Others(|row| - lw, RightCols(pairs)))
  {
    var keys := MergeKeys(row, lw, pairs);
    var lefts := PickOthers(row[..lw], LeftCols(pairs));
    var rights := PickOthers(row[lw..], RightCols(pairs));
    out := keys + (lefts + rights);
    assert out[|pairs|..] == lefts + rights;
  }

  method PickOthers(half: Row, joined: seq<nat>) returns (out: Row)
    ensures out == Pick(half, Others(|half|, joined))
  {
    out := [];
    for i := 0 to |half|
      invariant out == Pick(half, Others(i, joined))
    {
      if i !in joined { out := out + [half[i]]; }
    }
  }

  /** The present side wins: a padded right half leaves the left key, a padded left half takes the
      right key, and a matched pair with equal keys keeps it. */
  lemma PresentSideWins(l: Row, r: Row, p: Pair)
    requires p.l < |l| && p.r < |r|
    ensures Coalesce(l + Nulls(|r|), |l|, p) == l[p.l]
    ensures Coalesce(Nulls(|l|) + r, |l|, p) == r[p.r]
    ensures l[p.l] == r[p.r] ==> Coalesce(l + r, |l|, p) == l[p.l]
  {}
}
