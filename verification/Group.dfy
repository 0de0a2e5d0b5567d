/** GROUP BY: the hash-group fold with its index, and what each accumulator ends up holding. */
module Group {
  import opened Base
  import opened Datums

  type Key = seq<Datum>
  type KeyOf = Row -> Result<Key, EvalError>

  datatype Func = Count | Sum | Min | Max

  /** One aggregate call; `arg` is `None` for `count(*)`. */
  datatype Spec = Spec(func: Func, distinct: bool, arg: Option<Row -> Value>)

  predicate Star(spec: Spec) { spec.func == Count && spec.arg.None? }

  /** Every call but `count(*)` has an argument. */
  ghost predicate SpecOk(spec: Spec) { spec.arg.None? ==> spec.func == Count }

  /** A running accumulator; `seen` is used by DISTINCT only. */
  datatype Acc =
    | CountAcc(n: nat, seen: set<Datum>)
    | SumAcc(total: Option<int>, seen: set<Datum>)
    | BestAcc(best: Option<Datum>, seen: set<Datum>)

  function NewAcc(func: Func): Acc {
    match func
    case Count => CountAcc(0, {})
    case Sum => SumAcc(None, {})
    case _ => BestAcc(None, {})
  }

  /** The accumulator takes one more value, which is not NULL. */
  function Take(func: Func, acc: Acc, v: Datum): Result<Acc, EvalError> {
    match acc
    case CountAcc(n, seen) => Ok(CountAcc(n + 1, seen))
    case SumAcc(total, seen) =>
      if !v.Int? then Err(TypeMismatch)
      else
        var next := if total.Some? then total.value + v.i else v.i;
        if total.Some? && !(MIN64 <= next <= MAX64) then Err(Overflow) else Ok(SumAcc(Some(next), seen))
    case BestAcc(best, seen) =>
      if best.None? then Ok(BestAcc(Some(v), seen))
      else
        match Compare(v, best.value)
        case Err(e) => Err(e)
        case Ok(None) => Ok(acc)
        case Ok(Some(ord)) =>
          Ok(if (func == Min && ord < 0) || (func == Max && ord > 0) then BestAcc(Some(v), seen) else acc)
  }

  /** `fold_row`. */
  function FoldRow(spec: Spec, acc: Acc, row: Row): Result<Acc, EvalError>
    requires SpecOk(spec)
  {
    if Star(spec) then Take(Count, acc, Null)
    else
      match spec.arg.value(row)
      case Err(e) => Err(e)
      case Ok(v) =>
        if v == Null || (spec.distinct && v in acc.seen) then Ok(acc)
        else Take(spec.func, if spec.distinct then acc.(seen := acc.seen + {v}) else acc, v)
  }

  function FoldRows(spec: Spec, rows: seq<Row>): Result<Acc, EvalError>
    requires SpecOk(spec)
  {
    if rows == [] then Ok(NewAcc(spec.func))
    else
      match FoldRows(spec, rows[..|rows| - 1])
      case Err(e) => Err(e)
      case Ok(acc) => FoldRow(spec, acc, rows[|rows| - 1])
  }

  // ---- Groups ---------------------------------------------------------------------------------

  /** The rows of one group, in order. */
  function RowsOf(keyOf: KeyOf, rows: seq<Row>, k: Key): seq<Row> {
    if rows == [] then []
    else RowsOf(keyOf, rows[..|rows| - 1], k) + if keyOf(rows[|rows| - 1]) == Ok(k) then [rows[|rows| - 1]] else []
  }

  /** The keys in order of first appearance. */
  function FirstSeen(keyOf: KeyOf, rows: seq<Row>): seq<Key> {
    if rows == [] then []
    else
      var ks := FirstSeen(keyOf, rows[..|rows| - 1]);
      match keyOf(rows[|rows| - 1])
      case Err(_) => ks
      case Ok(k) => if k in ks then ks else ks + [k]
  }

  /** The groups folded so far: each accumulator holds the fold of exactly its own group's rows. */
  ghost predicate Folded(keyOf: KeyOf, specs: seq<Spec>, rows: seq<Row>, keys: seq<Key>, accs: seq<seq<Acc>>) {
    keys == FirstSeen(keyOf, rows) && Grouped(keyOf, specs, rows, keys, accs)
  }

  ghost predicate Grouped(keyOf: KeyOf, specs: seq<Spec>, rows: seq<Row>, keys: seq<Key>, accs: seq<seq<Acc>>) {
    |accs| == |keys| && forall g | 0 <= g < |keys| :: GroupFolded(specs, RowsOf(keyOf, rows, keys[g]), accs[g])
  }

  ghost predicate GroupFolded(specs: seq<Spec>, rows: seq<Row>, accs: seq<Acc>) {
    |accs| == |specs| && forall s | 0 <= s < |specs| :: SpecOk(specs[s]) && FoldRows(specs[s], rows) == Ok(accs[s])
  }

  ghost predicate Indexes(keys: seq<Key>, index: map<Key, nat>) {
    && (forall k | k in index :: index[k] < |keys| && keys[index[k]] == k)
    && (forall g | 0 <= g < |keys| :: keys[g] in index && index[keys[g]] == g)
  }

  /** The fold of the rows by specification `s` fails with `e`, and those before it do not. */
  ghost predicate SpecFails(specs: seq<Spec>, rows: seq<Row>, s: nat, e: EvalError) {
    && s < |specs| && SpecOk(specs[s]) && FoldRows(specs[s], rows) == Err(e)
    && forall t | 0 <= t < s :: SpecOk(specs[t]) && FoldRows(specs[t], rows).Ok?
  }

  /** The `n`th row's key, or the first accumulator of its group to fail on it, fails with `e`. */
  ghost predicate FailsAt(keyOf: KeyOf, specs: seq<Spec>, rows: seq<Row>, n: nat, e: EvalError) {
    && 0 < n <= |rows|
    && match keyOf(rows[n - 1])
       case Err(err) => err == e
       case Ok(key) => exists s :: SpecFails(specs, RowsOf(keyOf, rows[..n], key), s, e)
  }

  /** The `n`th row gives no error. */
  ghost predicate Passes(keyOf: KeyOf, specs: seq<Spec>, rows: seq<Row>, n: nat) {
    forall e :: !FailsAt(keyOf, specs, rows, n, e)
  }

  ghost predicate PassesTo(keyOf: KeyOf, specs: seq<Spec>, rows: seq<Row>, n: nat) {
    forall m | 0 < m <= n :: Passes(keyOf, specs, rows, m)
  }

  ghost predicate AllFold(specs: seq<Spec>, rows: seq<Row>) { forall s, e :: !SpecFails(specs, rows, s, e) }

  function NewAccs(specs: seq<Spec>): (out: seq<Acc>)
    ensures |out| == |specs| && forall s | 0 <= s < |specs| :: out[s] == NewAcc(specs[s].func)
  {
    seq(|specs|, s requires 0 <= s < |specs| => NewAcc(specs[s].func))
  }

  lemma RowsOfStep(keyOf: KeyOf, rows: seq<Row>, i: nat, k: Key)
    requires i < |rows|
    ensures RowsOf(keyOf, rows[..i + 1], k) ==
            RowsOf(keyOf, rows[..i], k) + if keyOf(rows[i]) == Ok(k) then [rows[i]] else []
  {
    assert rows[..i + 1][..i] == rows[..i];
  }

  lemma {:induction false} UnseenIsEmpty(keyOf: KeyOf, rows: seq<Row>, k: Key)
    ensures RowsOf(keyOf, rows, k) == [] <==> k !in FirstSeen(keyOf, rows)
  {
    if rows != [] { UnseenIsEmpty(keyOf, rows[..|rows| - 1], k); }
  }

  /** The inner loop: fold one row into every accumulator of its group. */
  method FoldGroup(specs: seq<Spec>, accs: seq<Acc>, row: Row, ghost before: seq<Row>)
    returns (accs': seq<Acc>, error: Option<EvalError>)
    requires GroupFolded(specs, before, accs)
    ensures error.None? ==> GroupFolded(specs, before + [row], accs')
    ensures error.Some? ==> exists s :: SpecFails(specs, before + [row], s, error.value)
  {
    accs' := [];
    assert (before + [row])[..|before|] == before;
    for s := 0 to |specs|
      invariant |accs'| == s && forall t | 0 <= t < s :: FoldRows(specs[t], before + [row]) == Ok(accs'[t])
    {
      match FoldRow(specs[s], accs[s], row)
      case Err(e) =>
        assert SpecFails(specs, before + [row], s, e);
        return accs', Some(e);
      case Ok(acc) => accs' := accs' + [acc];
    }
    error := None;
  }

  /** A group that has just appeared holds the fold of no rows. */
  lemma NewGroup(keyOf: KeyOf, specs: seq<Spec>, rows: seq<Row>, keys: seq<Key>, accs: seq<seq<Acc>>, key: Key)
    requires Grouped(keyOf, specs, rows, keys, accs) && key !in FirstSeen(keyOf, rows)
    requires forall s | 0 <= s < |specs| :: SpecOk(specs[s])
    ensures Grouped(keyOf, specs, rows, keys + [key], accs + [NewAccs(specs)])
  {
    UnseenIsEmpty(keyOf, rows, key);
    var keys', accs' := keys + [key], accs + [NewAccs(specs)];
    forall g | 0 <= g < |keys'| ensures GroupFolded(specs, RowsOf(keyOf, rows, keys'[g]), accs'[g]) {
      if g < |keys| { assert keys'[g] == keys[g] && accs'[g] == accs[g]; }
    }
  }

  /** The other groups keep their rows. */
  lemma RegroupedRow(keyOf: KeyOf, specs: seq<Spec>, rows: seq<Row>, i: nat, keys: seq<Key>, accs: seq<seq<Acc>>,
                     gi: nat, folded: seq<Acc>)
    requires i < |rows| && gi < |keys| && Grouped(keyOf, specs, rows[..i], keys, accs) && Indexed(keys)
    requires keyOf(rows[i]) == Ok(keys[gi]) && GroupFolded(specs, RowsOf(keyOf, rows[..i], keys[gi]) + [rows[i]], folded)
    ensures Grouped(keyOf, specs, rows[..i + 1], keys, accs[gi := folded])
  {
    forall g | 0 <= g < |keys| ensures GroupFolded(specs, RowsOf(keyOf, rows[..i + 1], keys[g]), accs[gi := folded][g]) {
      RowsOfStep(keyOf, rows, i, keys[g]);
      if g != gi {
        assert keys[if g < gi then g else gi] != keys[if g < gi then gi else g];
        assert RowsOf(keyOf, rows[..i + 1], keys[g]) == RowsOf(keyOf, rows[..i], keys[g]);
      }
    }
  }

  /** One row of the grouping loop: find or open its group, then fold it in. */
  method FoldIn(keyOf: KeyOf, specs: seq<Spec>, rows: seq<Row>, i: nat, key: Key, keys: seq<Key>, accs: seq<seq<Acc>>,
                index: map<Key, nat>)
    returns (keys': seq<Key>, accs': seq<seq<Acc>>, index': map<Key, nat>, error: Option<EvalError>)
    requires i < |rows| && keyOf(rows[i]) == Ok(key) && forall s | 0 <= s < |specs| :: SpecOk(specs[s])
    requires Folded(keyOf, specs, rows[..i], keys, accs) && Indexes(keys, index)
    ensures error.None? ==> Folded(keyOf, specs, rows[..i + 1], keys', accs') && Indexes(keys', index')
    ensures error.None? ==> Passes(keyOf, specs, rows, i + 1)
    ensures error.Some? ==> FailsAt(keyOf, specs, rows, i + 1, error.value)
  {
    keys', accs', index' := keys, accs, index;
    assert rows[..i + 1][..i] == rows[..i];
    if key !in index {
      NewGroup(keyOf, specs, rows[..i], keys, accs, key);
      index' := index[key := |keys|];
      keys', accs' := keys + [key], accs + [NewAccs(specs)];
    }
    IndexesDistinct(keys', index');
    var gi := index'[key];
    RowsOfStep(keyOf, rows, i, key);
    var folded;
    folded, error := FoldGroup(specs, accs'[gi], rows[i], RowsOf(keyOf, rows[..i], key));
    if error.None? {
      assert AllFold(specs, RowsOf(keyOf, rows[..i + 1], key));
      RegroupedRow(keyOf, specs, rows, i, keys', accs', gi, folded);
      accs' := accs'[gi := folded];
    }
  }

  ghost predicate Indexed(keys: seq<Key>) { forall a, b | 0 <= a < b < |keys| :: keys[a] != keys[b] }

  lemma IndexesDistinct(keys: seq<Key>, index: map<Key, nat>)
    requires Indexes(keys, index)
    ensures Indexed(keys)
  {
    forall a, b | 0 <= a < b < |keys| ensures keys[a] != keys[b] { assert index[keys[a]] == a && index[keys[b]] == b; }
  }

  /** The grouping loop of `aggregate_rows`. */
  method Aggregate(rows: seq<Row>, hasGroupBy: bool, keyOf: KeyOf, specs: seq<Spec>)
    returns (r: Result<(seq<Key>, seq<seq<Acc>>), EvalError>)
    requires forall s | 0 <= s < |specs| :: SpecOk(specs[s])
    ensures r.Ok? && (hasGroupBy || rows != []) ==> Folded(keyOf, specs, rows, r.value.0, r.value.1)
    ensures r.Ok? && !hasGroupBy && rows == [] ==> r.value == ([[]], [NewAccs(specs)])
    ensures r.Err? ==> exists n: nat :: FailsAt(keyOf, specs, rows, n + 1, r.error) && PassesTo(keyOf, specs, rows, n)
    ensures r.Ok? ==> PassesTo(keyOf, specs, rows, |rows|)
  {
    var keys: seq<Key> := [];
    var accs: seq<seq<Acc>> := [];
    var index: map<Key, nat> := map[];
    for i := 0 to |rows|
      invariant Folded(keyOf, specs, rows[..i], keys, accs) && Indexes(keys, index)
      invariant forall j | 0 <= j < i :: keyOf(rows[j]).Ok?
      invariant PassesTo(keyOf, specs, rows, i)
    {
      match keyOf(rows[i])
      case Err(e) =>
        assert FailsAt(keyOf, specs, rows, i + 1, e);
        return Err(e);
      case Ok(key) =>
        var error;
        keys, accs, index, error := FoldIn(keyOf, specs, rows, i, key, keys, accs, index);
        if error.Some? { return Err(error.value); }
    }
    assert rows[..|rows|] == rows;
    if rows != [] { SeenHere(keyOf, rows, keyOf(rows[0]).value); }
    if !hasGroupBy && keys == [] {
      keys, accs := [[]], [NewAccs(specs)];
    }
    r := Ok((keys, accs));
  }

  // ---- What the groups are --------------------------------------------------------------------

  lemma {:induction false} KeysDistinct(keyOf: KeyOf, rows: seq<Row>)
    ensures Indexed(FirstSeen(keyOf, rows))
  {
    if rows != [] {
      var before, ks := FirstSeen(keyOf, rows[..|rows| - 1]), FirstSeen(keyOf, rows);
      KeysDistinct(keyOf, rows[..|rows| - 1]);
      forall a, b | 0 <= a < b < |ks| ensures ks[a] != ks[b] {
        if b == |before| { assert ks[a] == before[a] && ks[b] !in before; }
      }
    }
  }

  ghost predicate FirstAt(keyOf: KeyOf, rows: seq<Row>, k: Key, i: nat) {
    i < |rows| && keyOf(rows[i]) == Ok(k) && forall j | 0 <= j < i :: keyOf(rows[j]) != Ok(k)
  }

  /** The keys come in the order in which they first appear. */
  lemma {:induction false} KeysInOrder(keyOf: KeyOf, rows: seq<Row>, a: nat, b: nat, i: nat, j: nat)
    requires a < b < |FirstSeen(keyOf, rows)|
    requires FirstAt(keyOf, rows, FirstSeen(keyOf, rows)[a], i) && FirstAt(keyOf, rows, FirstSeen(keyOf, rows)[b], j)
    ensures i < j
  {
    var n := |rows| - 1;
    var ks := FirstSeen(keyOf, rows[..n]);
    if b < |ks| {
      SeenHere(keyOf, rows[..n], ks[a]);
      SeenHere(keyOf, rows[..n], ks[b]);
      KeysInOrder(keyOf, rows[..n], a, b, i, j);
    } else {
      SeenHere(keyOf, rows[..n], ks[a]);
      SeenHere(keyOf, rows[..n], FirstSeen(keyOf, rows)[b]);
      KeysDistinct(keyOf, rows);
    }
  }

  lemma {:induction false} SeenHere(keyOf: KeyOf, rows: seq<Row>, k: Key)
    ensures k in FirstSeen(keyOf, rows) <==> exists i :: 0 <= i < |rows| && keyOf(rows[i]) == Ok(k)
  {
    if rows != [] {
      var n := |rows| - 1;
      SeenHere(keyOf, rows[..n], k);
      assert forall i | 0 <= i < n :: rows[..n][i] == rows[i];
    }
  }

  ghost function InGroup(keyOf: KeyOf, rows: seq<Row>, k: Key): nat -> bool {
    (i: nat) => i < |rows| && keyOf(rows[i]) == Ok(k)
  }

  ghost predicate RowsAt(rows: seq<Row>, at: seq<nat>, out: seq<Row>) {
    |out| == |at| && forall x | 0 <= x < |at| :: at[x] < |rows| && out[x] == rows[at[x]]
  }

  /** A group's rows are exactly the rows with its key, in their order. */
  lemma RowsOfListed(keyOf: KeyOf, rows: seq<Row>, k: Key) returns (at: seq<nat>)
    ensures Listing(at, |rows|, InGroup(keyOf, rows, k)) && RowsAt(rows, at, RowsOf(keyOf, rows, k))
  {
    at := RowsOfTo(keyOf, rows, k, |rows|);
    assert rows[..|rows|] == rows;
  }

  lemma {:induction false} RowsOfTo(keyOf: KeyOf, rows: seq<Row>, k: Key, n: nat) returns (at: seq<nat>)
    requires n <= |rows|
    ensures Listing(at, n, InGroup(keyOf, rows, k)) && RowsAt(rows, at, RowsOf(keyOf, rows[..n], k))
  {
    at := [];
    if n > 0 {
      at := RowsOfTo(keyOf, rows, k, n - 1);
      at := RowsMore(keyOf, rows, k, at, RowsOf(keyOf, rows[..n - 1], k), n - 1);
      RowsOfStep(keyOf, rows, n - 1, k);
    }
  }

  lemma RowsMore(keyOf: KeyOf, rows: seq<Row>, k: Key, before: seq<nat>, out: seq<Row>, n: nat) returns (at: seq<nat>)
    requires n < |rows| && Listing(before, n, InGroup(keyOf, rows, k)) && RowsAt(rows, before, out)
    ensures Listing(at, n + 1, InGroup(keyOf, rows, k))
    ensures RowsAt(rows, at, out + if keyOf(rows[n]) == Ok(k) then [rows[n]] else [])
  {
    var here := InGroup(keyOf, rows, k);
    assert here(n) == (keyOf(rows[n]) == Ok(k));
    at := if here(n) then before + [n] else before;
    ListingStep(before, n, here);
    assert !here(n) ==> out + [] == out;
  }

  function Sizes(keyOf: KeyOf, rows: seq<Row>, ks: seq<Key>): nat {
    if ks == [] then 0 else Sizes(keyOf, rows, ks[..|ks| - 1]) + |RowsOf(keyOf, rows, ks[|ks| - 1])|
  }

  /** One more row grows exactly its own group. */
  lemma {:induction false} SizesStep(keyOf: KeyOf, rows: seq<Row>, row: Row, ks: seq<Key>)
    requires Indexed(ks) && keyOf(row).Ok?
    ensures Sizes(keyOf, rows + [row], ks) == Sizes(keyOf, rows, ks) + if keyOf(row).value in ks then 1 else 0
  {
    if ks != [] {
      var n := |ks| - 1;
      assert forall a | 0 <= a < n :: ks[..n][a] == ks[a] && ks[a] != ks[n];
      SizesStep(keyOf, rows, row, ks[..n]);
      assert (rows + [row])[..|rows|] == rows;
      assert ks == ks[..n] + [ks[n]];
    }
  }

  /** CONSERVATION: the groups partition the rows, so the `count(*)` values add up to their number. */
  lemma {:induction false} GroupsPartition(keyOf: KeyOf, rows: seq<Row>)
    requires forall i | 0 <= i < |rows| :: keyOf(rows[i]).Ok?
    ensures Sizes(keyOf, rows, FirstSeen(keyOf, rows)) == |rows|
  {
    if rows != [] {
      var n := |rows| - 1;
      assert rows == rows[..n] + [rows[n]];
      GroupsPartition(keyOf, rows[..n]);
      KeysDistinct(keyOf, rows);
      SizesStep(keyOf, rows[..n], rows[n], FirstSeen(keyOf, rows));
      SizesOfNew(keyOf, rows[..n], keyOf(rows[n]).value);
    }
  }

  /** A key that has not appeared yet has no rows to add. */
  lemma SizesOfNew(keyOf: KeyOf, rows: seq<Row>, k: Key)
    ensures var ks := FirstSeen(keyOf, rows); k !in ks ==> Sizes(keyOf, rows, ks + [k]) == Sizes(keyOf, rows, ks)
  {
    var ks := FirstSeen(keyOf, rows);
    UnseenIsEmpty(keyOf, rows, k);
    assert (ks + [k])[..|ks|] == ks;
  }

  function CountTotal(accs: seq<seq<Acc>>, s: nat): nat
    requires forall g | 0 <= g < |accs| :: s < |accs[g]| && accs[g][s].CountAcc?
  {
    if accs == [] then 0 else CountTotal(accs[..|accs| - 1], s) + accs[|accs| - 1][s].n
  }

  /** The `count(*)` column of the result adds up to the number of input rows. */
  lemma CountsAddUp(keyOf: KeyOf, specs: seq<Spec>, rows: seq<Row>, keys: seq<Key>, accs: seq<seq<Acc>>, s: nat)
    requires Folded(keyOf, specs, rows, keys, accs) && s < |specs| && Star(specs[s])
    requires forall i | 0 <= i < |rows| :: keyOf(rows[i]).Ok?
    ensures forall g | 0 <= g < |accs| :: s < |accs[g]| && accs[g][s].CountAcc?
    ensures CountTotal(accs, s) == |rows|
  {
    forall g | 0 <= g < |accs| ensures s < |accs[g]| && accs[g][s] == CountAcc(|RowsOf(keyOf, rows, keys[g])|, {}) {
      assert GroupFolded(specs, RowsOf(keyOf, rows, keys[g]), accs[g]);
      StarCounts(specs[s], RowsOf(keyOf, rows, keys[g]));
    }
    TotalIsSizes(keyOf, rows, keys, accs, s);
    GroupsPartition(keyOf, rows);
  }

  lemma {:induction false} TotalIsSizes(keyOf: KeyOf, rows: seq<Row>, keys: seq<Key>, accs: seq<seq<Acc>>, s: nat)
    requires |keys| == |accs|
    requires forall g | 0 <= g < |accs| :: s < |accs[g]| && accs[g][s] == CountAcc(|RowsOf(keyOf, rows, keys[g])|, {})
    ensures CountTotal(accs, s) == Sizes(keyOf, rows, keys)
  {
    if accs != [] { TotalIsSizes(keyOf, rows, keys[..|keys| - 1], accs[..|accs| - 1], s); }
  }

  lemma {:induction false} StarCounts(spec: Spec, rows: seq<Row>)
    requires Star(spec)
    ensures FoldRows(spec, rows) == Ok(CountAcc(|rows|, {}))
  {
    if rows != [] { StarCounts(spec, rows[..|rows| - 1]); }
  }

  // ---- What an accumulator holds --------------------------------------------------------------

  /** The values a call takes from its rows: the arguments that are not NULL, and under DISTINCT
      only the first occurrence of each. */
  function Values(spec: Spec, rows: seq<Row>): Result<seq<Datum>, EvalError>
    requires spec.arg.Some?
  {
    if rows == [] then Ok([])
    else
      match Values(spec, rows[..|rows| - 1])
      case Err(e) => Err(e)
      case Ok(vs) =>
        match spec.arg.value(rows[|rows| - 1])
        case Err(e) => Err(e)
        case Ok(v) => Ok(if v == Null || (spec.distinct && v in vs) then vs else vs + [v])
  }

  function TakeAll(func: Func, vs: seq<Datum>, seen: set<Datum>): Result<Acc, EvalError> {
    if vs == [] then Ok(NewAcc(func).(seen := seen))
    else
      match TakeAll(func, vs[..|vs| - 1], seen)
      case Err(e) => Err(e)
      case Ok(acc) => Take(func, acc, vs[|vs| - 1])
  }

  function SeenIn(spec: Spec, vs: seq<Datum>): set<Datum> { if spec.distinct then set v | v in vs else {} }

  /** The `seen` set takes no part in what is accumulated. */
  lemma {:induction false} SeenIsInert(func: Func, vs: seq<Datum>, a: set<Datum>, b: set<Datum>)
    ensures TakeAll(func, vs, a).Ok? ==> TakeAll(func, vs, a).value.seen == a
    ensures TakeAll(func, vs, b) == match TakeAll(func, vs, a) case Err(e) => Err(e) case Ok(acc) => Ok(acc.(seen := b))
  {
    if vs != [] { SeenIsInert(func, vs[..|vs| - 1], a, b); }
  }

  lemma SeenGrows(spec: Spec, vs: seq<Datum>, v: Datum)
    ensures SeenIn(spec, vs + [v]) == if spec.distinct then SeenIn(spec, vs) + {v} else {}
  {}

  /** With every argument evaluated, the fold is that of the values, failures included. */
  lemma {:induction false} FoldValues(spec: Spec, rows: seq<Row>)
    requires spec.arg.Some? && Values(spec, rows).Ok?
    ensures FoldRows(spec, rows) == TakeAll(spec.func, Values(spec, rows).value, SeenIn(spec, Values(spec, rows).value))
  {
    if rows == [] {
      assert SeenIn(spec, []) == {};
    } else {
      var n := |rows| - 1;
      FoldValues(spec, rows[..n]);
      var vs, v := Values(spec, rows[..n]).value, spec.arg.value(rows[n]).value;
      SeenIsInert(spec.func, vs, SeenIn(spec, vs), SeenIn(spec, vs + [v]));
      SeenGrows(spec, vs, v);
      assert (vs + [v])[..|vs|] == vs;
    }
  }

  /** The first error stays. */
  lemma {:induction false} ErrorStays(spec: Spec, rows: seq<Row>, n: nat)
    requires SpecOk(spec) && n <= |rows| && FoldRows(spec, rows[..n]).Err?
    ensures FoldRows(spec, rows) == FoldRows(spec, rows[..n])
  {
    if n == |rows| {
      assert rows[..n] == rows;
    } else {
      var front := rows[..|rows| - 1];
      assert front[..n] == rows[..n];
      ErrorStays(spec, front, n);
    }
  }

  /** Row `i` has a value for the call: not NULL, and under DISTINCT no earlier row has the same. */
  ghost function Taken(spec: Spec, rows: seq<Row>): nat -> bool
    requires spec.arg.Some?
  {
    (i: nat) => i < |rows| && HasValue(spec, rows, i)
  }

  ghost predicate HasValue(spec: Spec, rows: seq<Row>, i: nat)
    requires spec.arg.Some? && i < |rows|
  {
    && spec.arg.value(rows[i]).Ok? && spec.arg.value(rows[i]).value != Null
    && (spec.distinct ==> forall j | 0 <= j < i :: spec.arg.value(rows[j]) != spec.arg.value(rows[i]))
  }

  ghost predicate ArgsAt(spec: Spec, rows: seq<Row>, at: seq<nat>, vs: seq<Datum>)
    requires spec.arg.Some?
  {
    |vs| == |at| && forall x | 0 <= x < |at| :: at[x] < |rows| && spec.arg.value(rows[at[x]]) == Ok(vs[x])
  }

  lemma ArgsMore(spec: Spec, rows: seq<Row>, before: seq<nat>, vs: seq<Datum>, n: nat) returns (at: seq<nat>)
    requires spec.arg.Some? && n < |rows| && spec.arg.value(rows[n]).Ok?
    requires Listing(before, n, Taken(spec, rows)) && ArgsAt(spec, rows, before, vs)
    ensures Listing(at, n + 1, Taken(spec, rows))
    ensures ArgsAt(spec, rows, at, if HasValue(spec, rows, n) then vs + [spec.arg.value(rows[n]).value] else vs)
  {
    var here := Taken(spec, rows);
    assert here(n) == HasValue(spec, rows, n);
    at := if here(n) then before + [n] else before;
    ListingStep(before, n, here);
  }

  lemma ValuesStep(spec: Spec, rows: seq<Row>, n: nat)
    requires spec.arg.Some? && n < |rows| && Values(spec, rows[..n]).Ok? && spec.arg.value(rows[n]).Ok?
    ensures var vs, v := Values(spec, rows[..n]).value, spec.arg.value(rows[n]).value;
            Values(spec, rows[..n + 1]) == Ok(if HasValue(spec, rows, n) then vs + [v] else vs)
  {
    assert rows[..n + 1][..n] == rows[..n];
    if spec.distinct {
      DistinctValues(spec, rows[..n]);
      assert forall j | 0 <= j < n :: rows[..n][j] == rows[j];
    }
  }

  /** While the arguments evaluate, the values are those of the rows that have one, in order. */
  lemma {:induction false} ValuesListed(spec: Spec, rows: seq<Row>, n: nat) returns (at: seq<nat>)
    requires spec.arg.Some? && n <= |rows| && forall i | 0 <= i < n :: spec.arg.value(rows[i]).Ok?
    ensures Values(spec, rows[..n]).Ok? && Listing(at, n, Taken(spec, rows))
    ensures ArgsAt(spec, rows, at, Values(spec, rows[..n]).value)
  {
    at := [];
    if n > 0 {
      at := ValuesListed(spec, rows, n - 1);
      at := ArgsMore(spec, rows, at, Values(spec, rows[..n - 1]).value, n - 1);
      ValuesStep(spec, rows, n - 1);
    }
  }

  lemma {:induction false} FirstBad(spec: Spec, rows: seq<Row>, n: nat) returns (m: nat)
    requires spec.arg.Some? && n <= |rows| && forall i | 0 <= i < n :: spec.arg.value(rows[i]).Ok?
    ensures n <= m <= |rows| && (forall i | 0 <= i < m :: spec.arg.value(rows[i]).Ok?)
    ensures m < |rows| ==> spec.arg.value(rows[m]).Err?
    decreases |rows| - n
  {
    m := n;
    if n < |rows| && spec.arg.value(rows[n]).Ok? { m := FirstBad(spec, rows, n + 1); }
  }

  /** What a call folds, for any rows: the values of the rows before the first whose argument
      fails, taken in order. The fold fails as taking them does, else with that argument. */
  lemma FoldIsTake(spec: Spec, rows: seq<Row>) returns (n: nat, at: seq<nat>, vs: seq<Datum>)
    requires spec.arg.Some?
    ensures n <= |rows| && (forall i | 0 <= i < n :: spec.arg.value(rows[i]).Ok?)
    ensures n < |rows| ==> spec.arg.value(rows[n]).Err?
    ensures Listing(at, n, Taken(spec, rows)) && ArgsAt(spec, rows, at, vs)
    ensures FoldRows(spec, rows) ==
            match TakeAll(spec.func, vs, SeenIn(spec, vs))
            case Err(e) => Err(e)
            case Ok(acc) => if n < |rows| then Err(spec.arg.value(rows[n]).error) else Ok(acc)
  {
    n := FirstBad(spec, rows, 0);
    at := ValuesListed(spec, rows, n);
    vs := Values(spec, rows[..n]).value;
    FoldValues(spec, rows[..n]);
    if FoldRows(spec, rows[..n]).Err? {
      ErrorStays(spec, rows, n);
    } else if n < |rows| {
      assert rows[..n + 1][..n] == rows[..n];
      ErrorStays(spec, rows, n + 1);
    } else {
      assert rows[..n] == rows;
    }
  }

  /** DISTINCT: no value is taken twice, and none that occurs is missed. */
  lemma {:induction false} DistinctValues(spec: Spec, rows: seq<Row>)
    requires spec.arg.Some? && spec.distinct && Values(spec, rows).Ok?
    ensures var vs := Values(spec, rows).value;
            && (forall a, b | 0 <= a < b < |vs| :: vs[a] != vs[b])
            && (forall v :: v in vs <==> v != Null && exists i :: 0 <= i < |rows| && spec.arg.value(rows[i]) == Ok(v))
  {
    if rows != [] {
      var n := |rows| - 1;
      DistinctValues(spec, rows[..n]);
      assert forall i | 0 <= i < n :: rows[..n][i] == rows[i];
    }
  }

  function SumOf(vs: seq<Datum>): int {
    if vs == [] then 0 else SumOf(vs[..|vs| - 1]) + if vs[|vs| - 1].Int? then vs[|vs| - 1].i else 0
  }

  /** Sums add up over any cut of the values. */
  lemma {:induction false} SumConcat(a: seq<Datum>, b: seq<Datum>)
    ensures SumOf(a + b) == SumOf(a) + SumOf(b)
    ensures forall v | b == [Int(v)] :: SumOf(b) == v
  {
    if b == [] {
      assert a + b == a;
    } else {
      assert (a + b)[..|a + b| - 1] == a + b[..|b| - 1];
      SumConcat(a, b[..|b| - 1]);
    }
  }

  ghost predicate AllInts(vs: seq<Datum>) { forall i | 0 <= i < |vs| :: vs[i].Int? && MIN64 <= vs[i].i <= MAX64 }

  lemma {:induction false} CountIsLength(vs: seq<Datum>, seen: set<Datum>)
    ensures TakeAll(Count, vs, seen) == Ok(CountAcc(|vs|, seen))
  {
    if vs != [] { CountIsLength(vs[..|vs| - 1], seen); }
  }

  /** The sum of every prefix lies in the 64-bit range. */
  ghost predicate PrefixesFit(vs: seq<Datum>) { forall p: seq<Datum> | PrefixOf(p, vs) :: MIN64 <= SumOf(p) <= MAX64 }

  predicate PrefixOf(p: seq<Datum>, vs: seq<Datum>) { p <= vs }

  lemma PrefixesStep(vs: seq<Datum>)
    requires vs != []
    ensures PrefixesFit(vs) <==> PrefixesFit(vs[..|vs| - 1]) && MIN64 <= SumOf(vs) <= MAX64
  {
    var front := vs[..|vs| - 1];
    assert PrefixOf(vs, vs);
    forall p: seq<Datum> ensures PrefixOf(p, vs) <==> p == vs || PrefixOf(p, front) {
      if p <= vs && p != vs { assert p == vs[..|p|] && |p| < |vs| && p == front[..|p|]; }
      if p <= front { assert p == front[..|p|] == vs[..|p|]; }
    }
  }

  /** SUM over integers is exact, NULL over none, and overflows exactly when some prefix leaves the
      64-bit range. */
  lemma {:induction false} SumIsExact(vs: seq<Datum>, seen: set<Datum>)
    requires AllInts(vs)
    ensures TakeAll(Sum, vs, seen) ==
            if PrefixesFit(vs) then Ok(SumAcc(if vs == [] then None else Some(SumOf(vs)), seen)) else Err(Overflow)
  {
    if vs == [] {
      assert forall p: seq<Datum> | PrefixOf(p, vs) :: p == [];
    } else {
      var n := |vs| - 1;
      SumIsExact(vs[..n], seen);
      PrefixesStep(vs);
      assert n == 0 ==> SumOf(vs[..n]) == 0;
    }
  }

  /** SUM fails on the first value that is no integer, unless it overflowed before. */
  lemma {:induction false} SumRejects(vs: seq<Datum>, n: nat, seen: set<Datum>)
    requires n < |vs| && AllInts(vs[..n]) && !vs[n].Int?
    ensures TakeAll(Sum, vs, seen) == if PrefixesFit(vs[..n]) then Err(TypeMismatch) else Err(Overflow)
  {
    SumIsExact(vs[..n], seen);
    var front := vs[..|vs| - 1];
    if n < |front| {
      assert front[..n] == vs[..n];
      SumRejects(front, n, seen);
    }
  }

  /** All values have one type, and none is NULL. */
  ghost predicate SameType(vs: seq<Datum>) { forall i | 0 <= i < |vs| :: Comparable(vs[i], vs[0]) }

  predicate Comparable(a: Datum, b: Datum) { (a.Int? && b.Int?) || (a.Bool? && b.Bool?) || (a.Text? && b.Text?) }

  /** Integers by value, `false` before `true`, text alphabetically. */
  ghost predicate AtMost(a: Datum, b: Datum) {
    || (a.Int? && b.Int? && a.i <= b.i)
    || (a.Bool? && b.Bool? && (a.b ==> b.b))
    || (a.Text? && b.Text? && AlphaAtMost(a.t, b.t))
  }

  lemma {:induction false} TextOrderFlips(x: string, y: string)
    ensures TextOrder(x, y) == -TextOrder(y, x)
  {
    if x != [] && y != [] && x[0] == y[0] { TextOrderFlips(x[1..], y[1..]); }
  }

  lemma {:induction false} TextOrderChains(x: string, y: string, z: string)
    requires TextOrder(x, y) <= 0 && TextOrder(y, z) <= 0
    ensures TextOrder(x, z) <= 0
  {
    if x != [] && y != [] && z != [] && x[0] == y[0] == z[0] { TextOrderChains(x[1..], y[1..], z[1..]); }
  }

  lemma AtMostChains(a: Datum, b: Datum, c: Datum)
    requires AtMost(a, b) && AtMost(b, c)
    ensures AtMost(a, c)
  {
    if a.Text? {
      TextOrderIs(a.t, b.t);
      TextOrderIs(b.t, c.t);
      TextOrderIs(a.t, c.t);
      TextOrderChains(a.t, b.t, c.t);
    }
  }

  /** The comparison of two values of one type decides which is at most the other. */
  lemma CompareDecides(a: Datum, b: Datum)
    requires Comparable(a, b)
    ensures Compare(a, b).Ok? && Compare(a, b).value.Some?
    ensures AtMost(a, a) && AtMost(b, b)
    ensures Compare(a, b).value.value <= 0 <==> AtMost(a, b)
    ensures Compare(a, b).value.value >= 0 <==> AtMost(b, a)
  {
    if a.Text? {
      TextOrderFlips(a.t, b.t);
      TextOrderIs(a.t, b.t);
      TextOrderIs(b.t, a.t);
    }
  }

  /** `best` is one of the values and none is smaller, or none larger. */
  ghost predicate IsExtreme(func: Func, vs: seq<Datum>, best: Option<Datum>) {
    && (best.None? <==> vs == [])
    && (best.Some? ==> best.value in vs)
    && (best.Some? ==> forall i | 0 <= i < |vs| ::
                         if func == Min then AtMost(best.value, vs[i]) else AtMost(vs[i], best.value))
  }

  /** MIN and MAX over values that are not NULL hold the smallest and the largest, and fail exactly
      when the values are not all of one type. */
  lemma {:induction false} Extremes(func: Func, vs: seq<Datum>, seen: set<Datum>)
    requires (func == Min || func == Max) && forall i | 0 <= i < |vs| :: vs[i] != Null
    ensures SameType(vs) ==>
              exists best :: TakeAll(func, vs, seen) == Ok(BestAcc(best, seen)) && IsExtreme(func, vs, best)
    ensures !SameType(vs) ==> TakeAll(func, vs, seen) == Err(TypeMismatch)
  {
    if vs == [] {
      assert IsExtreme(func, vs, None) && TakeAll(func, vs, seen) == Ok(BestAcc(None, seen));
    } else {
      var front, v := vs[..|vs| - 1], vs[|vs| - 1];
      assert vs == front + [v];
      Extremes(func, front, seen);
      if SameType(front) {
        var best :| TakeAll(func, front, seen) == Ok(BestAcc(best, seen)) && IsExtreme(func, front, best);
        if SameType(vs) { ExtremeStep(func, front, v, best, seen); } else { MixedStep(func, front, v, best, seen); }
      } else {
        assert forall i | 0 <= i < |front| :: vs[i] == front[i];
      }
    }
  }

  lemma MixedStep(func: Func, front: seq<Datum>, v: Datum, best: Option<Datum>, seen: set<Datum>)
    requires v != Null && SameType(front) && !SameType(front + [v]) && IsExtreme(func, front, best)
    ensures Take(func, BestAcc(best, seen), v) == Err(TypeMismatch)
  {
    var vs := front + [v];
    assert front == [] ==> vs == [v];
    assert forall i | 0 <= i < |front| :: vs[i] == front[i];
    if best.Some? {
      var j :| 0 <= j < |front| && front[j] == best.value;
      assert Comparable(front[j], front[0]) && !Comparable(v, vs[0]);
    }
  }

  lemma ExtremeStep(func: Func, front: seq<Datum>, v: Datum, best: Option<Datum>, seen: set<Datum>)
    requires (func == Min || func == Max) && v != Null && SameType(front + [v]) && IsExtreme(func, front, best)
    ensures exists best' :: Take(func, BestAcc(best, seen), v) == Ok(BestAcc(best', seen)) &&
                       IsExtreme(func, front + [v], best')
  {
    var vs := front + [v];
    assert Comparable(vs[|front|], vs[0]);
    CompareDecides(v, v);
    if best.Some? {
      var j :| 0 <= j < |front| && front[j] == best.value;
      assert vs[j] == best.value && Comparable(vs[j], vs[0]) && Comparable(v, best.value);
      CompareDecides(v, best.value);
      forall i | 0 <= i < |front|
        ensures AtMost(v, best.value) && func == Min ==> AtMost(v, front[i])
        ensures AtMost(best.value, v) && func == Max ==> AtMost(front[i], v)
      {
        if AtMost(v, best.value) && func == Min { AtMostChains(v, best.value, front[i]); }
        if AtMost(best.value, v) && func == Max { AtMostChains(front[i], best.value, v); }
      }
    }
    assert IsExtreme(func, vs, Take(func, BestAcc(best, seen), v).value.best);
  }
}
