/** Offset pushdown for a foreign scan: the bounds extracted from a WHERE clause, the range a scan
    reads under them, and the three-valued evaluation they must not disturb. */
module Pushdown {
  import opened Base
  import opened Datums

  const MIN32: int := -0x8000_0000
  const MAX32: int := 0x7FFF_FFFF

  datatype BinaryOp = And | Or | Eq | Ne | Lt | Le | Gt | Ge

  /** `Computed` stands for any expression the extraction does not look into. */
  datatype Expr =
    | Column(name: string)
    | IntLiteral(value: nat)
    | Neg(expr: Expr)
    | Binary(op: BinaryOp, left: Expr, right: Expr)
    | Between(expr: Expr, low: Expr, high: Expr, negated: bool)
    | Computed(id: nat)

  /** A row of the topic: its partition and offset, and the other columns. */
  datatype TopicRow = TopicRow(partition: int, offset: int, columns: map<string, Datum>, computed: map<nat, Value>)

  ghost predicate RowOk(row: TopicRow) { MIN32 <= row.partition <= MAX32 && MIN64 <= row.offset <= MAX64 }

  // ---- Evaluation ---------------------------------------------------------------------------

  function CmpHolds(op: BinaryOp, ord: int): bool {
    match op
    case Eq => ord == 0
    case Ne => ord != 0
    case Lt => ord < 0
    case Le => ord <= 0
    case Gt => ord > 0
    case Ge => ord >= 0
    case _ => false
  }

  function AsBool(d: Datum): Result<Option<bool>, EvalError> {
    match d case Null => Ok(None) case Bool(b) => Ok(Some(b)) case _ => Err(TypeMismatch)
  }

  function ApplyBinary(op: BinaryOp, l: Datum, r: Datum): Value {
    if op == And || op == Or then
      match (AsBool(l), AsBool(r))
      case (Err(e), _) => Err(e)
      case (_, Err(e)) => Err(e)
      case (Ok(x), Ok(y)) =>
        var dominant := op == Or;
        Ok(if x == Some(dominant) || y == Some(dominant) then Bool(dominant)
           else if x.Some? && y.Some? then Bool(!dominant) else Null)
    else
      match Compare(l, r)
      case Err(e) => Err(e)
      case Ok(None) => Ok(Null)
      case Ok(Some(ord)) => Ok(Bool(CmpHolds(op, ord)))
  }

  function Not(d: Datum): Value {
    match AsBool(d) case Err(e) => Err(e) case Ok(None) => Ok(Null) case Ok(Some(b)) => Ok(Bool(!b))
  }

  function EvalBetween(x: Datum, lo: Datum, hi: Datum, negated: bool): Value {
    match (ApplyBinary(Ge, x, lo), ApplyBinary(Le, x, hi))
    case (Err(e), _) => Err(e)
    case (_, Err(e)) => Err(e)
    case (Ok(a), Ok(b)) =>
      var both := ApplyBinary(And, a, b);
      if negated && both.Ok? then Not(both.value) else both
  }

  /** Both operands of AND and OR are always evaluated. */
  function Eval(e: Expr, row: TopicRow): Value {
    match e
    case Column(name) =>
      if name == "_partition" then Ok(Int(row.partition))
      else if name == "_offset" then Ok(Int(row.offset))
      else if name in row.columns then Ok(row.columns[name]) else Err(Undefined)
    case IntLiteral(v) => if v <= MAX64 then Ok(Int(v)) else Err(Overflow)
    case Neg(x) =>
      (match Eval(x, row)
       case Ok(Int(i)) => Ok(Int(-i))
       case Ok(Null) => Ok(Null)
       case Ok(_) => Err(TypeMismatch)
       case Err(err) => Err(err))
    case Binary(op, l, r) =>
      (match (Eval(l, row), Eval(r, row))
       case (Err(err), _) => Err(err)
       case (_, Err(err)) => Err(err)
       case (Ok(a), Ok(b)) => ApplyBinary(op, a, b))
    case Between(x, lo, hi, negated) =>
      (match (Eval(x, row), Eval(lo, row), Eval(hi, row))
       case (Err(err), _, _) => Err(err)
       case (_, Err(err), _) => Err(err)
       case (_, _, Err(err)) => Err(err)
       case (Ok(a), Ok(b), Ok(c)) => EvalBetween(a, b, c, negated))
    case Computed(id) => if id in row.computed then row.computed[id] else Err(Failed(id))
  }

  predicate Keeps(e: Expr, row: TopicRow) { Eval(e, row) == Ok(Bool(true)) }

  // ---- Extraction -----------------------------------------------------------------------------

  function Conjuncts(e: Expr): seq<Expr> {
    match e case Binary(And, l, r) => Conjuncts(l) + Conjuncts(r) case _ => [e]
  }

  function Literal(e: Expr): Option<int> {
    match e
    case IntLiteral(v) => if v <= MAX64 then Some(v) else None
    case Neg(x) => (match Literal(x) case Some(v) => Some(-v) case None => None)
    case _ => None
  }

  function PartitionEq(e: Expr): Option<int> {
    match e
    case Binary(Eq, l, r) =>
      var v := if l == Column("_partition") then Literal(r) else if r == Column("_partition") then Literal(l) else None;
      if v.Some? && MIN32 <= v.value <= MAX32 then v else None
    case _ => None
  }

  function Mirror(op: BinaryOp): Option<BinaryOp> {
    match op case Lt => Some(Gt) case Le => Some(Ge) case Gt => Some(Lt) case Ge => Some(Le) case _ => None
  }

  /** 64-bit addition of one wraps. */
  function Succ(v: int): int { if v == MAX64 then MIN64 else v + 1 }

  datatype OffsetBound = NoBound | StartIncl(v: int) | EndExcl(v: int) | Both(start: int, end: int)

  function BoundOf(op: BinaryOp, lit: int): OffsetBound {
    match op
    case Ge => StartIncl(lit)
    case Gt => StartIncl(Succ(lit))
    case Le => EndExcl(Succ(lit))
    case Lt => EndExcl(lit)
    case _ => NoBound
  }

  function MatchOffset(e: Expr): OffsetBound {
    match e
    case Binary(op, l, r) =>
      if l == Column("_offset") then
        if Literal(r).Some? then BoundOf(op, Literal(r).value) else NoBound
      else if r == Column("_offset") then
        if Mirror(op).Some? && Literal(l).Some? then BoundOf(Mirror(op).value, Literal(l).value) else NoBound
      else NoBound
    case Between(Column(name), lo, hi, false) =>
      if name == "_offset" && Literal(lo).Some? && Literal(hi).Some?
      then Both(Literal(lo).value, Succ(Literal(hi).value)) else NoBound
    case _ => NoBound
  }

  /** Per-partition offsets; the extraction never names more than one partition. */
  datatype ScanBounds = ScanBounds(starts: seq<(int, int)>, ends: seq<(int, int)>)

  const UNBOUNDED := ScanBounds([], [])

  // ---- What a scan reads --------------------------------------------------------------------

  predicate Mentions(s: seq<(int, int)>, p: int) { exists i :: 0 <= i < |s| && s[i].0 == p }

  /** The first entry for the partition. */
  function Lookup(s: seq<(int, int)>, p: int): Option<int> {
    if s == [] then None else if s[0].0 == p then Some(s[0].1) else Lookup(s[1..], p)
  }

  /** The scan of a topic whose partition retains `[earliest, hwm)` delivers the row. */
  predicate Delivered(b: ScanBounds, earliest: int, hwm: int, p: int, o: int) {
    && (b == UNBOUNDED || Mentions(b.starts, p) || Mentions(b.ends, p))
    && (var lo := Lookup(b.starts, p); (if lo.Some? && lo.value > earliest then lo.value else earliest) <= o)
    && (var hi := Lookup(b.ends, p); o < if hi.Some? && hi.value < hwm then hi.value else hwm)
  }

  // ---- What the bounds mean -------------------------------------------------------------------

  predicate SatisfiesBound(b: OffsetBound, o: int) {
    match b
    case NoBound => true
    case StartIncl(v) => v <= o
    case EndExcl(v) => o < v
    case Both(s, e) => s <= o < e
  }

  /** The partition every `_partition =` conjunct names, if there is one and they agree. */
  ghost predicate Anchored(cs: seq<Expr>, p: int) {
    (exists i :: 0 <= i < |cs| && PartitionEq(cs[i]) == Some(p)) &&
    forall i | 0 <= i < |cs| && PartitionEq(cs[i]).Some? :: PartitionEq(cs[i]).value == p
  }

  ghost predicate HasBound(cs: seq<Expr>) { exists i :: 0 <= i < |cs| && MatchOffset(cs[i]) != NoBound }

  ghost predicate WithinAll(cs: seq<Expr>, o: int) { forall i | 0 <= i < |cs| :: SatisfiesBound(MatchOffset(cs[i]), o) }

  /** A conjunct puts an upper limit of the largest 64-bit offset, whose successor wraps. */
  predicate Wraps(e: Expr) {
    match MatchOffset(e) case EndExcl(v) => WrappedEnd(e) case Both(_, _) => WrappedEnd(e) case _ => false
  }

  predicate WrappedEnd(e: Expr) {
    match e
    case Binary(Le, l, r) => l == Column("_offset") && Literal(r) == Some(MAX64)
    case Binary(Ge, l, r) => l != Column("_offset") && r == Column("_offset") && Literal(l) == Some(MAX64)
    case Between(x, lo, hi, negated) => Literal(hi) == Some(MAX64)
    case _ => false
  }

  ghost predicate EndWraps(e: Expr) {
    && (exists p :: Anchored(Conjuncts(e), p))
    && exists i :: 0 <= i < |Conjuncts(e)| && Wraps(Conjuncts(e)[i])
  }

  // ---- The extraction loop ------------------------------------------------------------------

  /** What the extracted bounds are: nothing unless the conjuncts name exactly one partition and
      limit the offset; then exactly the rows of that partition that meet every limit. */
  ghost predicate Extracted(cs: seq<Expr>, b: ScanBounds) {
    && ((forall p :: !Anchored(cs, p)) || !HasBound(cs) ==> b == UNBOUNDED)
    && (forall p | Anchored(cs, p) && HasBound(cs) :: forall earliest, hwm, q, o ::
          Delivered(b, earliest, hwm, q, o) <==> q == p && earliest <= o < hwm && WithinAll(cs, o))
  }

  method FindAnchor(cs: seq<Expr>) returns (partition: Option<int>)
    ensures partition.Some? ==> Anchored(cs, partition.value)
    ensures partition.None? ==> forall p :: !Anchored(cs, p)
  {
    partition := None;
    for i := 0 to |cs|
      invariant partition.None? ==> forall k | 0 <= k < i :: PartitionEq(cs[k]).None?
      invariant partition.Some? ==> Anchored(cs[..i], partition.value)
    {
      var p := PartitionEq(cs[i]);
      if p.Some? {
        if partition.Some? && partition != p {
          var k :| 0 <= k < i && PartitionEq(cs[..i][k]) == partition;
          assert PartitionEq(cs[k]) == partition;
          return None;
        }
        assert PartitionEq(cs[..i + 1][i]) == p;
        partition := p;
      } else if partition.Some? {
        var k :| 0 <= k < i && PartitionEq(cs[..i][k]) == partition;
        assert PartitionEq(cs[..i + 1][k]) == partition;
      }
      assert forall k | 0 <= k < i :: cs[..i + 1][k] == cs[..i][k];
    }
    assert cs[..|cs|] == cs;
  }

  predicate Inside(start: Option<int>, end: Option<int>, o: int) {
    (start.Some? ==> start.value <= o) && (end.Some? ==> o < end.value)
  }

  function Tighter(cur: Option<int>, v: int, up: bool): Option<int> {
    if cur.None? || (if up then cur.value < v else v < cur.value) then Some(v) else cur
  }

  /** The tightest start and end over all conjuncts. */
  method Tighten(cs: seq<Expr>) returns (start: Option<int>, end: Option<int>)
    ensures start.None? && end.None? <==> !HasBound(cs)
    ensures forall o :: Inside(start, end, o) <==> WithinAll(cs, o)
  {
    start, end := None, None;
    for i := 0 to |cs|
      invariant start.None? && end.None? <==> forall k | 0 <= k < i :: MatchOffset(cs[k]) == NoBound
      invariant forall o :: Inside(start, end, o) <==> WithinAll(cs[..i], o)
    {
      ghost var s0, e0 := start, end;
      match MatchOffset(cs[i]) {
        case StartIncl(v) => start := Tighter(start, v, true);
        case EndExcl(v) => end := Tighter(end, v, false);
        case Both(s, e) => start, end := Tighter(start, s, true), Tighter(end, e, false);
        case NoBound =>
      }
      forall o ensures Inside(start, end, o) <==> WithinAll(cs[..i + 1], o) {
        WithinOneMore(cs, i, o);
        assert Inside(start, end, o) <==> Inside(s0, e0, o) && SatisfiesBound(MatchOffset(cs[i]), o);
      }
    }
    assert cs[..|cs|] == cs;
  }

  lemma WithinOneMore(cs: seq<Expr>, i: nat, o: int)
    requires i < |cs|
    ensures WithinAll(cs[..i + 1], o) <==> WithinAll(cs[..i], o) && SatisfiesBound(MatchOffset(cs[i]), o)
  {
    assert forall k | 0 <= k < i :: cs[..i + 1][k] == cs[..i][k];
    assert cs[..i + 1][i] == cs[i];
  }

  function OffsetAt(p: int, v: Option<int>): seq<(int, int)> { if v.Some? then [(p, v.value)] else [] }

  /** `extract_scan_bounds`. */
  method ExtractScanBounds(filter: Option<Expr>) returns (b: ScanBounds)
    ensures filter.None? ==> b == UNBOUNDED
    ensures filter.Some? ==> Extracted(Conjuncts(filter.value), b)
  {
    if filter.None? { return UNBOUNDED; }
    var cs := Conjuncts(filter.value);
    var partition := FindAnchor(cs);
    if partition.None? { return UNBOUNDED; }
    var start, end := Tighten(cs);
    b := ScanBounds(OffsetAt(partition.value, start), OffsetAt(partition.value, end));
    BoundsRead(cs, partition.value, start, end);
  }

  lemma BoundsRead(cs: seq<Expr>, p: int, start: Option<int>, end: Option<int>)
    requires Anchored(cs, p) && (start.None? && end.None? <==> !HasBound(cs))
    requires forall o :: Inside(start, end, o) <==> WithinAll(cs, o)
    ensures Extracted(cs, ScanBounds(OffsetAt(p, start), OffsetAt(p, end)))
  {
    var b := ScanBounds(OffsetAt(p, start), OffsetAt(p, end));
    forall q | Anchored(cs, q) ensures q == p {
      var i :| 0 <= i < |cs| && PartitionEq(cs[i]) == Some(q);
    }
    if HasBound(cs) {
      forall earliest, hwm, q, o
        ensures Delivered(b, earliest, hwm, q, o) <==> q == p && earliest <= o < hwm && WithinAll(cs, o)
      {
        assert Inside(start, end, o) <==> WithinAll(cs, o);
        OneEntry(p, start, q);
        OneEntry(p, end, q);
      }
    }
  }

  lemma OneEntry(p: int, v: Option<int>, q: int)
    ensures Lookup(OffsetAt(p, v), q) == if q == p then v else None
    ensures Mentions(OffsetAt(p, v), q) <==> q == p && v.Some?
  {
    if v.Some? { assert OffsetAt(p, v)[0].0 == p && OffsetAt(p, v)[1..] == []; }
  }

  // ---- Meaning is preserved -----------------------------------------------------------------

  predicate AllKeep(cs: seq<Expr>, row: TopicRow) { forall i | 0 <= i < |cs| :: Keeps(cs[i], row) }

  lemma AllKeepConcat(a: seq<Expr>, b: seq<Expr>, row: TopicRow)
    ensures AllKeep(a + b, row) <==> AllKeep(a, row) && AllKeep(b, row)
  {
    if AllKeep(a + b, row) {
      forall i | 0 <= i < |a| ensures Keeps(a[i], row) { assert (a + b)[i] == a[i]; }
      forall i | 0 <= i < |b| ensures Keeps(b[i], row) { assert (a + b)[|a| + i] == b[i]; }
    }
  }

  /** A row is kept by a WHERE clause exactly when every conjunct keeps it. */
  lemma {:induction false} KeptByAll(e: Expr, row: TopicRow)
    ensures Keeps(e, row) <==> AllKeep(Conjuncts(e), row)
  {
    if e.Binary? && e.op == And {
      KeptByAll(e.left, row);
      KeptByAll(e.right, row);
      AllKeepConcat(Conjuncts(e.left), Conjuncts(e.right), row);
    } else {
      assert Conjuncts(e) == [e] && Conjuncts(e)[0] == e;
    }
  }

  lemma {:induction false} LiteralEval(e: Expr, row: TopicRow)
    requires Literal(e).Some?
    ensures Eval(e, row) == Ok(Int(Literal(e).value)) && -MAX64 <= Literal(e).value <= MAX64
  {
    if e.Neg? { LiteralEval(e.expr, row); }
  }

  lemma PartitionHolds(c: Expr, row: TopicRow)
    requires Keeps(c, row) && PartitionEq(c).Some?
    ensures row.partition == PartitionEq(c).value
  {
    assert Eval(Column("_partition"), row) == Ok(Int(row.partition));
    if c.left == Column("_partition") { LiteralEval(c.right, row); } else { LiteralEval(c.left, row); }
  }

  /** A kept row meets the conjunct's offset limit, unless the limit's successor wrapped. */
  lemma OffsetHolds(c: Expr, row: TopicRow)
    requires Keeps(c, row) && RowOk(row) && MatchOffset(c) != NoBound
    ensures SatisfiesBound(MatchOffset(c), row.offset) <==> !Wraps(c)
  {
    assert Eval(Column("_offset"), row) == Ok(Int(row.offset));
    match c
    case Binary(op, l, r) => if l == Column("_offset") { LiteralEval(r, row); } else { LiteralEval(l, row); }
    case Between(x, lo, hi, negated) => LiteralEval(lo, row); LiteralEval(hi, row);
  }

  lemma WrapsBound(c: Expr)
    ensures Wraps(c) ==> MatchOffset(c) != NoBound
  {}

  /** PUSHDOWN, exactly: a row the WHERE clause keeps is delivered under the extracted bounds if
      and only if no upper limit equals the largest 64-bit offset while a partition is named. */
  lemma PushdownExact(e: Expr, b: ScanBounds, row: TopicRow, earliest: int, hwm: int)
    requires Extracted(Conjuncts(e), b) && RowOk(row) && Keeps(e, row) && earliest <= row.offset < hwm
    ensures Delivered(b, earliest, hwm, row.partition, row.offset) <==> !EndWraps(e)
  {
    var cs := Conjuncts(e);
    KeptByAll(e, row);
    forall i | 0 <= i < |cs| ensures SatisfiesBound(MatchOffset(cs[i]), row.offset) <==> !Wraps(cs[i]) {
      assert Keeps(cs[i], row);
      if MatchOffset(cs[i]) != NoBound { OffsetHolds(cs[i], row); }
    }
    if p :| Anchored(cs, p) {
      var j :| 0 <= j < |cs| && PartitionEq(cs[j]) == Some(p);
      assert Keeps(cs[j], row);
      PartitionHolds(cs[j], row);
      if HasBound(cs) {
        assert Delivered(b, earliest, hwm, row.partition, row.offset) <==> WithinAll(cs, row.offset);
      } else {
        forall i | 0 <= i < |cs| ensures !Wraps(cs[i]) { WrapsBound(cs[i]); }
      }
    }
  }

  // ---- Whole scans ------------------------------------------------------------------------------

  /** Evaluate the WHERE clause on each row in turn; the first error is the query's error. */
  function Filter(e: Expr, rows: seq<TopicRow>): Result<seq<TopicRow>, EvalError> {
    if rows == [] then Ok([])
    else
      match Eval(e, rows[0])
      case Err(err) => Err(err)
      case Ok(Int(_)) => Err(TypeMismatch)
      case Ok(Text(_)) => Err(TypeMismatch)
      case Ok(d) =>
        match Filter(e, rows[1..])
        case Err(err) => Err(err)
        case Ok(rest) => Ok(if d == Bool(true) then [rows[0]] + rest else rest)
  }

  function Scan(b: ScanBounds, earliest: int, hwm: int, rows: seq<TopicRow>): seq<TopicRow> {
    if rows == [] then []
    else
      var rest := Scan(b, earliest, hwm, rows[1..]);
      if Delivered(b, earliest, hwm, rows[0].partition, rows[0].offset) then [rows[0]] + rest else rest
  }

  /** PUSHDOWN PRESERVES MEANING: for every WHERE tree that evaluates without error on the topic,
      filtering only the rows inside the extracted bounds gives the same rows in the same order. */
  lemma {:induction false} PushdownPreserves(e: Expr, b: ScanBounds, earliest: int, hwm: int, rows: seq<TopicRow>)
    requires Extracted(Conjuncts(e), b) && !EndWraps(e) && Filter(e, rows).Ok?
    requires forall i | 0 <= i < |rows| :: RowOk(rows[i]) && earliest <= rows[i].offset < hwm
    ensures Filter(e, Scan(b, earliest, hwm, rows)) == Filter(e, rows)
  {
    if rows != [] {
      PushdownPreserves(e, b, earliest, hwm, rows[1..]);
      var rest := Scan(b, earliest, hwm, rows[1..]);
      assert ([rows[0]] + rest)[1..] == rest;
      if Keeps(e, rows[0]) { PushdownExact(e, b, rows[0], earliest, hwm); }
    }
  }

  /** Filtering is row by row: the first error ends it, and `FilterOne` says what one row gives. */
  lemma {:induction false} FilterConcat(e: Expr, a: seq<TopicRow>, b: seq<TopicRow>)
    ensures Filter(e, a + b) == Joined(Filter(e, a), Filter(e, b))
  {
    if a == [] {
      assert a + b == b;
      assert Filter(e, b).Ok? ==> [] + Filter(e, b).value == Filter(e, b).value;
    } else {
      assert (a + b)[0] == a[0] && (a + b)[1..] == a[1..] + b;
      FilterConcat(e, a[1..], b);
      JoinedStep(a[0], Filter(e, a[1..]), Filter(e, b));
    }
  }

  function Joined(a: Result<seq<TopicRow>, EvalError>, b: Result<seq<TopicRow>, EvalError>): Result<seq<TopicRow>, EvalError> {
    if a.Err? then a else if b.Err? then b else Ok(a.value + b.value)
  }

  lemma JoinedStep(row: TopicRow, a: Result<seq<TopicRow>, EvalError>, b: Result<seq<TopicRow>, EvalError>)
    ensures a.Ok? && b.Ok? ==> Ok([row] + Joined(a, b).value) == Joined(Ok([row] + a.value), b)
  {
    if a.Ok? && b.Ok? { assert [row] + (a.value + b.value) == ([row] + a.value) + b.value; }
  }

  lemma FilterOne(e: Expr, row: TopicRow)
    ensures Filter(e, [row]) ==
            match Eval(e, row)
            case Err(err) => Err(err)
            case Ok(Bool(kept)) => Ok(if kept then [row] else [])
            case Ok(Null) => Ok([])
            case _ => Err(TypeMismatch)
  {
    assert [row][1..] == [] && Filter(e, []) == Ok([]);
    assert [row] + [] == [row];
  }

  /** So is scanning: exactly the rows inside the bounds are read, in their order. */
  lemma {:induction false} ScanConcat(bounds: ScanBounds, earliest: int, hwm: int, a: seq<TopicRow>, b: seq<TopicRow>)
    ensures Scan(bounds, earliest, hwm, a + b) == Scan(bounds, earliest, hwm, a) + Scan(bounds, earliest, hwm, b)
    ensures |a| == 1 ==>
              Scan(bounds, earliest, hwm, a) == if Delivered(bounds, earliest, hwm, a[0].partition, a[0].offset) then a else []
  {
    if a == [] {
      assert a + b == b;
    } else {
      assert (a + b)[1..] == a[1..] + b;
      ScanConcat(bounds, earliest, hwm, a[1..], b);
    }
  }

  // ---- What is pushed down --------------------------------------------------------------------

  /** The comparison on integers. */
  predicate IntHolds(op: BinaryOp, a: int, b: int) {
    match op
    case Eq => a == b case Ne => a != b case Lt => a < b case Le => a <= b case Gt => a > b case Ge => a >= b
    case _ => false
  }

  /** An inequality between the offset and a literal, either way round, is a limit that admits
      exactly the offsets satisfying it, unless it is past the largest 64-bit offset. */
  lemma ComparisonBound(op: BinaryOp, e: Expr, o: int)
    requires (op == Lt || op == Le || op == Gt || op == Ge) && Literal(e).Some?
    ensures MatchOffset(Binary(op, Column("_offset"), e)) != NoBound
    ensures MatchOffset(Binary(op, e, Column("_offset"))) != NoBound
    ensures Literal(e).value != MAX64 ==>
              && (SatisfiesBound(MatchOffset(Binary(op, Column("_offset"), e)), o) <==> IntHolds(op, o, Literal(e).value))
              && (SatisfiesBound(MatchOffset(Binary(op, e, Column("_offset"))), o) <==> IntHolds(op, Literal(e).value, o))
    ensures op == Lt || op == Ge ==>
              (SatisfiesBound(MatchOffset(Binary(op, Column("_offset"), e)), o) <==> IntHolds(op, o, Literal(e).value))
  {}

  lemma BetweenBound(lo: Expr, hi: Expr, o: int)
    requires Literal(lo).Some? && Literal(hi).Some? && Literal(hi).value != MAX64
    ensures MatchOffset(Between(Column("_offset"), lo, hi, false)) != NoBound
    ensures SatisfiesBound(MatchOffset(Between(Column("_offset"), lo, hi, false)), o) <==>
            Literal(lo).value <= o <= Literal(hi).value
  {}

  function Signed(v: nat, negated: bool): int { if negated then 0 - v else v }

  function SignedLiteral(v: nat, negated: bool): Expr { if negated then Neg(IntLiteral(v)) else IntLiteral(v) }

  /** PUSHDOWN IS SELECTIVE: naming a partition and one inequality on the offset reads exactly the
      retained rows that satisfy both. */
  lemma SelectiveScan(p: nat, op: BinaryOp, v: nat, negated: bool, b: ScanBounds, earliest: int, hwm: int, q: int, o: int)
    requires p <= MAX32 && v < MAX64 && (op == Lt || op == Le || op == Gt || op == Ge)
    requires var part := Binary(Eq, Column("_partition"), IntLiteral(p));
             Extracted(Conjuncts(Binary(And, part, Binary(op, Column("_offset"), SignedLiteral(v, negated)))), b)
    ensures Delivered(b, earliest, hwm, q, o) <==> q == p && earliest <= o < hwm && IntHolds(op, o, Signed(v, negated))
  {
    var lit := SignedLiteral(v, negated);
    var c, d := Binary(Eq, Column("_partition"), IntLiteral(p)), Binary(op, Column("_offset"), lit);
    var cs := Conjuncts(Binary(And, c, d));
    assert Literal(lit) == Some(Signed(v, negated));
    assert Conjuncts(c) == [c] && Conjuncts(d) == [d];
    assert cs == [c, d];
    ComparisonBound(op, lit, o);
    assert PartitionEq(cs[0]) == Some(p) && PartitionEq(cs[1]) == None && MatchOffset(cs[0]) == NoBound;
    assert MatchOffset(cs[1]) != NoBound;
    assert Anchored(cs, p) && HasBound(cs);
    assert WithinAll(cs, o) <==> SatisfiesBound(MatchOffset(cs[1]), o);
  }

  // ---- Three-valued logic -----------------------------------------------------------------------

  function Truth(x: Option<bool>): Datum { match x case None => Null case Some(b) => Bool(b) }

  /** AND, OR and NOT on true, false and unknown. */
  lemma ThreeValued(x: Option<bool>, y: Option<bool>)
    ensures ApplyBinary(And, Truth(x), Truth(y)) ==
            Ok(if x == Some(false) || y == Some(false) then Bool(false) else if x.None? || y.None? then Null else Bool(true))
    ensures ApplyBinary(Or, Truth(x), Truth(y)) ==
            Ok(if x == Some(true) || y == Some(true) then Bool(true) else if x.None? || y.None? then Null else Bool(false))
    ensures Not(Truth(x)) == Ok(Truth(if x.None? then None else Some(!x.value)))
  {}

  /** Comparisons of integers, and with NULL. */
  lemma Comparisons(op: BinaryOp, a: int, b: int, d: Datum)
    requires op != And && op != Or
    ensures ApplyBinary(op, Int(a), Int(b)) == Ok(Bool(IntHolds(op, a, b)))
    ensures ApplyBinary(op, Null, d) == Ok(Null) && ApplyBinary(op, d, Null) == Ok(Null)
  {}

  /** BETWEEN on integers, either way. */
  lemma BetweenIs(a: int, b: int, c: int, negated: bool)
    ensures EvalBetween(Int(a), Int(b), Int(c), negated) == Ok(Bool((b <= a <= c) != negated))
  {}
}
