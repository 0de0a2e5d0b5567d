/** The Raft log stores: the in-memory one recomputes its last id on every read, the durable one
    keeps it in a cache beside a byte-keyed keyspace. */
module LogStore {
  import opened Base
  import opened BigEndian
  import opened DurableApply

  // ---- Keys ---------------------------------------------------------------------------------

  /** The bytes of `log/`. */
  const LOG_PREFIX: Bytes := [108, 111, 103, 47]

  function LogKey(index: nat): (k: Bytes)
    ensures |k| == 12 && LOG_PREFIX <= k
  {
    LOG_PREFIX + Encode(index, 8)
  }

  function LogIndex(k: Bytes): Option<nat> {
    if |k| == 12 && LOG_PREFIX <= k then Some(Value(k[4..])) else None
  }

  /** `log_index` inverts `log_key`, and accepts nothing else. */
  lemma KeyRoundTrip(index: nat, k: Bytes)
    requires index < U64
    ensures LogIndex(LogKey(index)) == Some(index)
    ensures LogIndex(k).Some? ==> LogIndex(k).value < U64 && LogKey(LogIndex(k).value) == k
  {
    U64IsPow();
    ValueOfEncode(index, 8);
    assert LogKey(index)[4..] == Encode(index, 8);
    if LogIndex(k).Some? {
      EncodeOfValue(k[4..]);
      assert k == LOG_PREFIX + k[4..];
    }
  }

  /** Byte order of log keys is numeric order of indexes. */
  lemma KeyOrder(i: nat, j: nat)
    requires i < U64 && j < U64
    ensures LexLess(LogKey(i), LogKey(j)) <==> i < j
    ensures LogKey(i) == LogKey(j) <==> i == j
  {
    U64IsPow();
    ValueOfEncode(i, 8);
    ValueOfEncode(j, 8);
    OrderIsNumeric(Encode(i, 8), Encode(j, 8));
    PrefixedOrder(LOG_PREFIX, Encode(i, 8), Encode(j, 8));
    assert LogKey(i)[4..] == Encode(i, 8) && LogKey(j)[4..] == Encode(j, 8);
  }

  // ---- The in-memory store ------------------------------------------------------------------

  datatype Mem = Mem(log: map<nat, Entry>, purged: Option<LogId>)

  function Inserted(log: map<nat, Entry>, es: seq<Entry>): map<nat, Entry> {
    if es == [] then log else Inserted(log, es[..|es| - 1])[es[|es| - 1].id.index := es[|es| - 1]]
  }

  /** Leader first (term, then node), then index. */
  predicate IdLe(a: LogId, b: LogId) {
    a.term < b.term || (a.term == b.term && (a.node < b.node || (a.node == b.node && a.index <= b.index)))
  }

  ghost predicate IsTop(log: map<nat, Entry>, i: nat) { i in log && forall j | j in log :: j <= i }

  /** What `get_log_state` recomputes: the id of the entry with the highest index, else the last
      purged id. */
  ghost predicate LastIs(m: Mem, last: Option<LogId>) {
    if m.log == map[] then last == m.purged else exists i :: IsTop(m.log, i) && last == Some(m.log[i].id)
  }

  class MemLogStore {
    var log: map<nat, Entry>
    var purged: Option<LogId>

    ghost function State(): Mem
      reads this
    {
      Mem(log, purged)
    }

    constructor ()
      ensures State() == Mem(map[], None)
    {
      log, purged := map[], None;
    }

    method Append(es: seq<Entry>)
      modifies this`log
      ensures log == Inserted(old(log), es)
      ensures forall i, j | LastWith(es, i, j) :: i in log && log[i] == es[j]
      ensures forall i: nat | NoneWith(es, i) ::
                (i in log <==> i in old(log)) && (i in log ==> log[i] == old(log)[i])
    {
      for i := 0 to |es|
        invariant log == Inserted(old(log), es[..i])
      {
        assert es[..i + 1][..i] == es[..i];
        log := log[es[i].id.index := es[i]];
      }
      assert es[..|es|] == es;
      forall i, j | LastWith(es, i, j) ensures i in log && log[i] == es[j] { InsertedLast(old(log), es, i, j); }
      forall i: nat | NoneWith(es, i)
        ensures (i in log <==> i in old(log)) && (i in log ==> log[i] == old(log)[i])
      {
        InsertedOther(old(log), es, i);
      }
    }

    method Truncate(id: LogId)
      modifies this`log
      ensures forall i :: i in log <==> i in old(log) && i < id.index
      ensures forall i | i in log :: log[i] == old(log)[i]
      ensures log == Below(old(log), id.index)
    {
      log := map i | i in log && i < id.index :: log[i];
    }

    method Purge(id: LogId)
      requires purged.Some? ==> IdLe(purged.value, id)
      modifies this
      ensures purged == Some(id) && forall i :: i in log <==> i in old(log) && i > id.index
      ensures forall i | i in log :: log[i] == old(log)[i]
      ensures State() == Mem(Above(old(log), id.index), Some(id))
    {
      purged := Some(id);
      log := map i | i in log && id.index < i :: log[i];
    }

    /** `get_log_state`. */
    method LastLogId() returns (last: Option<LogId>)
      ensures LastIs(State(), last)
    {
      if log == map[] { return purged; }
      HasTop(log);
      var i :| i in log && forall j | j in log :: j <= i;
      assert IsTop(log, i);
      return Some(log[i].id);
    }
  }

  /** The entry at `j` is the last with index `i`. */
  ghost predicate LastWith(es: seq<Entry>, i: nat, j: int) {
    0 <= j < |es| && es[j].id.index == i && forall k | j < k < |es| :: es[k].id.index != i
  }

  ghost predicate NoneWith(es: seq<Entry>, i: nat) { forall j | 0 <= j < |es| :: es[j].id.index != i }

  lemma {:induction false} InsertedLast(log: map<nat, Entry>, es: seq<Entry>, i: nat, j: int)
    requires LastWith(es, i, j)
    ensures i in Inserted(log, es) && Inserted(log, es)[i] == es[j]
  {
    if j < |es| - 1 { InsertedLast(log, es[..|es| - 1], i, j); }
  }

  lemma {:induction false} InsertedOther(log: map<nat, Entry>, es: seq<Entry>, i: nat)
    requires NoneWith(es, i)
    ensures i in Inserted(log, es) <==> i in log
    ensures i in log ==> Inserted(log, es)[i] == log[i]
  {
    if es != [] { InsertedOther(log, es[..|es| - 1], i); }
  }

  function Below(log: map<nat, Entry>, n: nat): map<nat, Entry> { map i | i in log && i < n :: log[i] }

  function Above(log: map<nat, Entry>, n: nat): map<nat, Entry> { map i | i in log && n < i :: log[i] }

  lemma HasTop(log: map<nat, Entry>)
    requires log != map[]
    ensures exists i :: IsTop(log, i)
  {
    var i :| i in log;
    var rest := log.Keys - {i};
    while rest != {}
      invariant i in log && rest <= log.Keys && forall j | j in log && j !in rest :: j <= i
      decreases rest
    {
      var j :| j in rest;
      rest := rest - {j};
      if j > i { i := j; }
    }
    assert IsTop(log, i);
  }

  // ---- The durable store --------------------------------------------------------------------

  /** The keyspace and the stored purge record survive a restart; the cache does not. */
  datatype Disk = Disk(ks: map<Bytes, Entry>, record: Option<LogId>, last: Option<LogId>, purged: Option<LogId>)

  /** The keyspace holds exactly the log, one key per index. */
  ghost predicate Stores(ks: map<Bytes, Entry>, log: map<nat, Entry>) {
    && (forall i | i in log :: i < U64 && log[i].id.index == i && LogKey(i) in ks && ks[LogKey(i)] == log[i])
    && (forall k | k in ks :: exists i :: i in log && k == LogKey(i))
  }

  /** The refinement: same log, same purge record, and the cache is what the log implies. */
  ghost predicate Refines(d: Disk, m: Mem) {
    Stores(d.ks, m.log) && d.record == m.purged && d.purged == m.purged && LastIs(m, d.last)
  }

  ghost predicate IsHighest(ks: map<Bytes, Entry>, r: Option<LogId>) {
    if ks == map[] then r == None
    else exists k :: k in ks && (forall k' | k' in ks :: k' == k || LexLess(k', k)) && r == Some(ks[k].id)
  }

  function OrElse(a: Option<LogId>, b: Option<LogId>): Option<LogId> { if a.Some? then a else b }

  /** The last key in byte order carries the highest index. */
  lemma HighestIsTop(ks: map<Bytes, Entry>, log: map<nat, Entry>, purged: Option<LogId>, r: Option<LogId>)
    requires Stores(ks, log) && IsHighest(ks, r)
    ensures LastIs(Mem(log, purged), OrElse(r, purged))
  {
    if log != map[] {
      var i0 :| i0 in log;
      assert LogKey(i0) in ks;
      var k :| k in ks && (forall k' | k' in ks :: k' == k || LexLess(k', k)) && r == Some(ks[k].id);
      var i :| i in log && k == LogKey(i);
      forall j | j in log ensures j <= i { KeyOrder(j, i); }
      assert IsTop(log, i);
    }
  }

  lemma HasHighest(ks: map<Bytes, Entry>, log: map<nat, Entry>) returns (k: Bytes)
    requires Stores(ks, log) && ks != map[]
    ensures k in ks && forall k' | k' in ks :: k' == k || LexLess(k', k)
  {
    var k0 :| k0 in ks;
    HasTop(log);
    var i :| IsTop(log, i);
    k := LogKey(i);
    forall k' | k' in ks ensures k' == k || LexLess(k', k) {
      var j :| j in log && k' == LogKey(j);
      KeyOrder(j, i);
    }
  }

  /** The id that `append` offers the cache: the first with the greatest index. */
  function Greatest(es: seq<Entry>): Option<LogId> {
    if es == [] then None
    else
      var g, e := Greatest(es[..|es| - 1]), es[|es| - 1];
      if g.None? || e.id.index > g.value.index then Some(e.id) else g
  }

  lemma {:induction false} GreatestIs(es: seq<Entry>) returns (i: nat)
    requires es != []
    ensures i < |es| && Greatest(es) == Some(es[i].id)
    ensures forall j | 0 <= j < |es| :: es[j].id.index <= es[i].id.index
  {
    var n := |es| - 1;
    i := n;
    if n > 0 {
      var k := GreatestIs(es[..n]);
      assert forall j | 0 <= j < n :: es[..n][j] == es[j];
      if es[n].id.index <= es[k].id.index { i := k; }
    }
  }

  /** The entry at `i` has the greatest index. */
  ghost predicate Tops(es: seq<Entry>, i: int) {
    0 <= i < |es| && forall j | 0 <= j < |es| :: es[j].id.index <= es[i].id.index
  }

  lemma GreatestOnly(es: seq<Entry>)
    requires Distinct(es)
    ensures es == [] ==> Greatest(es).None?
    ensures forall i | Tops(es, i) :: Greatest(es) == Some(es[i].id)
  {
    if es != [] { var i := GreatestIs(es); }
  }

  class DurableLogStore {
    var ks: map<Bytes, Entry>
    var record: Option<LogId>
    var last: Option<LogId>
    var purged: Option<LogId>

    ghost function State(): Disk
      reads this
    {
      Disk(ks, record, last, purged)
    }

    /** `open` over what is on disk; `log` names its abstract contents. */
    constructor (ks: map<Bytes, Entry>, record: Option<LogId>, ghost log: map<nat, Entry>)
      requires Stores(ks, log)
      ensures this.ks == ks && this.record == record
      ensures Refines(State(), Mem(log, record))
    {
      this.ks, this.record, this.purged := ks, record, record;
      new;
      var top := HighestLogId(log);
      last := OrElse(top, record);
      HighestIsTop(ks, log, record, top);
    }

    method HighestLogId(ghost log: map<nat, Entry>) returns (r: Option<LogId>)
      requires Stores(ks, log)
      ensures IsHighest(ks, r)
    {
      if ks == map[] { return None; }
      ghost var h := HasHighest(ks, log);
      var k :| k in ks && forall k' | k' in ks :: k' == k || LexLess(k', k);
      return Some(ks[k].id);
    }

    /** `append`, for entries with distinct indexes; `m` is the abstract state before. */
    method Append(es: seq<Entry>, ghost m: Mem)
      requires Refines(State(), m) && Distinct(es)
      modifies this
      ensures Stores(ks, Inserted(m.log, es)) && record == old(record) && purged == old(purged)
      ensures Refines(State(), m.(log := Inserted(m.log, es))) <==> CanAppend(m, old(last), es)
      ensures es == [] ==> last == old(last)
      ensures forall i | Tops(es, i) ::
                last == if old(last).Some? && es[i].id.index <= old(last).value.index then old(last) else Some(es[i].id)
    {
      var best: Option<LogId> := None;
      for i := 0 to |es|
        invariant Stores(ks, Inserted(m.log, es[..i])) && best == Greatest(es[..i])
        invariant record == old(record) && purged == old(purged) && last == old(last)
      {
        assert es[..i + 1][..i] == es[..i];
        StoreOne(ks, Inserted(m.log, es[..i]), es[i]);
        ks := ks[LogKey(es[i].id.index) := es[i]];
        if best.None? || es[i].id.index > best.value.index {
          best := Some(es[i].id);
        }
      }
      assert es[..|es|] == es;
      if best.Some? && (last.None? || best.value.index > last.value.index) {
        last := best;
      }
      AppendExact(m, es, old(last), last);
      GreatestOnly(es);
    }

    method Truncate(id: LogId, ghost m: Mem)
      requires Refines(State(), m)
      modifies this
      ensures Refines(State(), m.(log := Below(m.log, id.index))) && purged == old(purged)
      ensures forall k :: k in ks <==> k in old(ks) && old(ks)[k].id.index < id.index
      ensures forall k | k in ks :: ks[k] == old(ks)[k]
    {
      var keys := set k | k in ks && LogIndex(k).Some? && LogIndex(k).value >= id.index;
      TruncateRemoves(ks, m.log, id, keys);
      ks := ks - keys;
      var top := HighestLogId(Below(m.log, id.index));
      HighestIsTop(ks, Below(m.log, id.index), purged, top);
      last := OrElse(top, purged);
    }

    method Purge(id: LogId, ghost m: Mem)
      requires Refines(State(), m) && (purged.Some? ==> IdLe(purged.value, id))
      modifies this
      ensures Refines(State(), Mem(Above(m.log, id.index), Some(id))) <==> CanPurge(m, old(last), id)
      ensures purged == Some(id) && record == Some(id)
      ensures last == if old(last).Some? && old(last).value.index >= id.index then old(last) else Some(id)
      ensures forall k :: k in ks <==> k in old(ks) && old(ks)[k].id.index > id.index
      ensures forall k | k in ks :: ks[k] == old(ks)[k]
    {
      var keys := set k | k in ks && LogIndex(k).Some? && LogIndex(k).value <= id.index;
      PurgeRemoves(ks, m.log, id, keys);
      PurgeRefines(State(), m, id, keys);
      ks, record := ks - keys, Some(id);
      purged := Some(id);
      if last.None? || last.value.index < id.index {
        last := Some(id);
      }
      assert State() == Disk(old(ks) - keys, Some(id), Lifted(old(last), id), Some(id));
    }
  }

  ghost predicate Distinct(es: seq<Entry>) {
    && (forall i | 0 <= i < |es| :: es[i].id.index < U64)
    && (forall i, j | 0 <= i < j < |es| :: es[i].id.index != es[j].id.index)
  }

  lemma StoreOne(ks: map<Bytes, Entry>, log: map<nat, Entry>, e: Entry)
    requires Stores(ks, log) && e.id.index < U64
    ensures Stores(ks[LogKey(e.id.index) := e], log[e.id.index := e])
  {
    var ks', log' := ks[LogKey(e.id.index) := e], log[e.id.index := e];
    forall i | i in log'
      ensures i < U64 && log'[i].id.index == i && LogKey(i) in ks' && ks'[LogKey(i)] == log'[i]
    {
      KeyOrder(i, e.id.index);
    }
    forall k | k in ks' ensures exists i :: i in log' && k == LogKey(i) {
      if k in ks {
        var i :| i in log && k == LogKey(i);
        assert i in log';
      } else {
        assert e.id.index in log';
      }
    }
  }

  /** A stored key decodes to the index of its entry. */
  lemma IndexOfKey(ks: map<Bytes, Entry>, log: map<nat, Entry>)
    requires Stores(ks, log)
    ensures forall k | k in ks :: LogIndex(k) == Some(ks[k].id.index)
  {
    forall k | k in ks ensures LogIndex(k) == Some(ks[k].id.index) {
      var i :| i in log && k == LogKey(i);
      KeyRoundTrip(i, []);
    }
  }

  lemma TruncateRemoves(ks: map<Bytes, Entry>, log: map<nat, Entry>, id: LogId, keys: set<Bytes>)
    requires Stores(ks, log) && keys == set k | k in ks && LogIndex(k).Some? && LogIndex(k).value >= id.index
    ensures Stores(ks - keys, Below(log, id.index))
    ensures forall k :: k in ks - keys <==> k in ks && ks[k].id.index < id.index
  {
    IndexOfKey(ks, log);
    Removed(ks, log, keys, Below(log, id.index));
  }

  lemma PurgeRemoves(ks: map<Bytes, Entry>, log: map<nat, Entry>, id: LogId, keys: set<Bytes>)
    requires Stores(ks, log) && keys == set k | k in ks && LogIndex(k).Some? && LogIndex(k).value <= id.index
    ensures forall k :: k in ks - keys <==> k in ks && ks[k].id.index > id.index
  {
    IndexOfKey(ks, log);
  }

  /** A removal by decoded index removes exactly those entries. */
  lemma Removed(ks: map<Bytes, Entry>, log: map<nat, Entry>, keys: set<Bytes>, log': map<nat, Entry>)
    requires Stores(ks, log)
    requires forall i | i in log' :: i in log && log'[i] == log[i]
    requires forall k | k in ks && LogIndex(k).Some? && LogIndex(k).value in log :: k in keys <==> LogIndex(k).value !in log'
    ensures Stores(ks - keys, log')
  {
    forall i | i in log' ensures LogKey(i) in ks - keys { KeyRoundTrip(i, []); }
    forall k | k in ks - keys ensures exists i :: i in log' && k == LogKey(i) {
      var i :| i in log && k == LogKey(i);
      KeyRoundTrip(i, []);
    }
  }

  // ---- When the cache is right --------------------------------------------------------------

  /** EXACT CONDITION for append: the greatest new index lies past the cached last id, or below
      it while the log is not empty, or rewrites the last entry with the id it already has. */
  predicate CanAppend(m: Mem, last: Option<LogId>, es: seq<Entry>) {
    var best := Greatest(es);
    || best == None || last == None || best == last
    || best.value.index > last.value.index
    || (m.log != map[] && best.value.index < last.value.index)
  }

  /** EXACT CONDITION for purge: the same shape. */
  predicate CanPurge(m: Mem, last: Option<LogId>, id: LogId) {
    || last == None || last == Some(id)
    || last.value.index < id.index
    || (m.log != map[] && last.value.index > id.index)
  }

  lemma TopIs(m: Mem, i: nat, last: Option<LogId>)
    requires IsTop(m.log, i)
    ensures LastIs(m, last) <==> last == Some(m.log[i].id)
  {}

  lemma {:induction false} InsertedAt(log: map<nat, Entry>, es: seq<Entry>, i: nat)
    requires Distinct(es)
    ensures i < |es| ==> es[i].id.index in Inserted(log, es) && Inserted(log, es)[es[i].id.index] == es[i]
    ensures forall k | k in log && (forall j | 0 <= j < |es| :: es[j].id.index != k) ::
              k in Inserted(log, es) && Inserted(log, es)[k] == log[k]
    ensures forall k | k in Inserted(log, es) && k !in log :: exists j :: 0 <= j < |es| && es[j].id.index == k
  {
    if es != [] {
      var n := |es| - 1;
      assert forall j | 0 <= j < n :: es[..n][j] == es[j];
      InsertedAt(log, es[..n], i);
    }
  }

  lemma AppendExact(m: Mem, es: seq<Entry>, last: Option<LogId>, last': Option<LogId>)
    requires LastIs(m, last) && Distinct(es) && forall i | i in m.log :: m.log[i].id.index == i
    requires var best := Greatest(es);
             last' == if best.Some? && (last.None? || best.value.index > last.value.index) then best else last
    ensures LastIs(m.(log := Inserted(m.log, es)), last') <==> CanAppend(m, last, es)
  {
    if es != [] {
      var i := GreatestIs(es);
      var b, m' := es[i].id.index, m.(log := Inserted(m.log, es));
      InsertedAt(m.log, es, i);
      if m.log == map[] {
        TopIs(m', b, last');
      } else {
        var t: nat :| IsTop(m.log, t) && last == Some(m.log[t].id);
        TopIs(m', if b < t then t else b, last');
      }
    }
  }

  function Lifted(last: Option<LogId>, id: LogId): Option<LogId> {
    if last.None? || last.value.index < id.index then Some(id) else last
  }

  lemma PurgeExact(m: Mem, id: LogId, last: Option<LogId>)
    requires LastIs(m, last) && forall i | i in m.log :: m.log[i].id.index == i
    ensures LastIs(Mem(Above(m.log, id.index), Some(id)), Lifted(last, id)) <==> CanPurge(m, last, id)
  {
    var m', last' := Mem(Above(m.log, id.index), Some(id)), Lifted(last, id);
    if m.log != map[] {
      var t: nat :| IsTop(m.log, t) && last == Some(m.log[t].id);
      if t > id.index {
        TopIs(m', t, last');
      } else {
        assert m'.log == map[];
      }
    } else {
      assert m'.log == map[];
    }
  }

  lemma PurgeRefines(d: Disk, m: Mem, id: LogId, keys: set<Bytes>)
    requires Refines(d, m) && keys == set k | k in d.ks && LogIndex(k).Some? && LogIndex(k).value <= id.index
    ensures Refines(Disk(d.ks - keys, Some(id), Lifted(d.last, id), Some(id)), Mem(Above(m.log, id.index), Some(id)))
            <==> CanPurge(m, d.last, id)
  {
    Removed(d.ks, m.log, keys, Above(m.log, id.index));
    PurgeExact(m, id, d.last);
  }

  // ---- Every run ------------------------------------------------------------------------------

  datatype LogOp = AppendOp(es: seq<Entry>) | TruncateOp(id: LogId) | PurgeOp(id: LogId) | ReopenOp

  ghost predicate Past(m: Mem, index: nat) {
    forall last | LastIs(m, Some(last)) :: last.index < index
  }

  /** What Raft promises its log store: append past the last id, purge an id that is on the log,
      past it, or the one already purged. */
  ghost predicate Contract(m: Mem, op: LogOp) {
    match op
    case AppendOp(es) => Distinct(es) && forall i | 0 <= i < |es| :: Past(m, es[i].id.index)
    case PurgeOp(id) =>
      && (m.purged.Some? ==> IdLe(m.purged.value, id))
      && ((id.index in m.log && m.log[id.index].id == id) || Past(m, id.index) || LastIs(m, Some(id)))
    case _ => true
  }

  function After(m: Mem, op: LogOp): Mem {
    match op
    case AppendOp(es) => m.(log := Inserted(m.log, es))
    case TruncateOp(id) => m.(log := Below(m.log, id.index))
    case PurgeOp(id) => Mem(Above(m.log, id.index), Some(id))
    case ReopenOp => m
  }

  function AfterAll(ops: seq<LogOp>): Mem {
    if ops == [] then Mem(map[], None) else After(AfterAll(ops[..|ops| - 1]), ops[|ops| - 1])
  }

  ghost predicate Legal(ops: seq<LogOp>) {
    forall n | 0 <= n < |ops| :: Contract(AfterAll(ops[..n]), ops[n])
  }

  lemma ContractSuffices(m: Mem, last: Option<LogId>, op: LogOp)
    requires LastIs(m, last) && Contract(m, op) && forall i | i in m.log :: m.log[i].id.index == i
    ensures op.AppendOp? ==> CanAppend(m, last, op.es)
    ensures op.PurgeOp? ==> CanPurge(m, last, op.id)
  {
    if op.AppendOp? && op.es != [] {
      var i := GreatestIs(op.es);
      assert Past(m, op.es[i].id.index);
    }
    if op.PurgeOp? && m.log != map[] {
      var t: nat :| IsTop(m.log, t) && last == Some(m.log[t].id);
      TopIs(m, t, Some(op.id));
    }
  }

  /** LOG-CACHE REFINEMENT: driven through any sequence of appends, truncations, purges and
      reopenings that keeps the contract, the two stores stay in step, the cached last and
      purged ids included. */
  method Mirror(ops: seq<LogOp>) returns (mem: MemLogStore, disk: DurableLogStore)
    requires Legal(ops)
    ensures fresh(mem) && fresh(disk)
    ensures mem.State() == AfterAll(ops) && Refines(disk.State(), mem.State())
  {
    mem := new MemLogStore();
    disk := new DurableLogStore(map[], None, map[]);
    for n := 0 to |ops|
      invariant fresh(mem) && fresh(disk)
      invariant mem.State() == AfterAll(ops[..n]) && Refines(disk.State(), mem.State())
    {
      assert ops[..n + 1][..n] == ops[..n];
      ghost var m := mem.State();
      assert Contract(m, ops[n]);
      ContractSuffices(m, disk.last, ops[n]);
      match ops[n]
      case AppendOp(es) => mem.Append(es); disk.Append(es, m);
      case TruncateOp(id) => mem.Truncate(id); disk.Truncate(id, m);
      case PurgeOp(id) => mem.Purge(id); disk.Purge(id, m);
      case ReopenOp => disk := new DurableLogStore(disk.ks, disk.record, m.log);
    }
    assert ops[..|ops|] == ops;
  }
}
