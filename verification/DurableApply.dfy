/** The two state-machine stores: the in-memory one applies ops one by one, the durable one
    stages a whole call in a batch and tracks pending counters and decisions beside it. */
module DurableApply {
  import opened Base
  import opened BigEndian
  import opened Apply

  datatype LogId = LogId(term: nat, node: nat, index: nat)
  datatype Payload = Blank | Normal(ops: seq<Op>) | Membership(members: set<nat>)
  datatype Entry = Entry(id: LogId, payload: Payload)
  datatype Stored = Stored(at: Option<LogId>, members: set<nat>)
  datatype Meta = Meta(applied: Option<LogId>, membership: Stored)

  function EntryOps(e: Entry): seq<Op> { if e.payload.Normal? then e.payload.ops else [] }

  function Ops(entries: seq<Entry>): seq<Op> {
    if entries == [] then [] else Ops(entries[..|entries| - 1]) + EntryOps(entries[|entries| - 1])
  }

  function NextMeta(m: Meta, e: Entry): Meta {
    Meta(Some(e.id), if e.payload.Membership? then Stored(Some(e.id), e.payload.members) else m.membership)
  }

  function Advance(m: Meta, entries: seq<Entry>): Meta {
    if entries == [] then m else NextMeta(Advance(m, entries[..|entries| - 1]), entries[|entries| - 1])
  }

  /** How many ops the first `n` entries carry. */
  function OpsBefore(entries: seq<Entry>, n: nat): nat
    requires n <= |entries|
  {
    if n == 0 then 0
    else OpsBefore(entries, n - 1) + match entries[n - 1].payload case Normal(ops) => |ops| case _ => 0
  }

  /** `ops` is exactly the ops of the normal entries: each entry's stand after all those of earlier
      entries, and there are no others. */
  ghost predicate Lists(ops: seq<Op>, entries: seq<Entry>) {
    && |ops| == OpsBefore(entries, |entries|)
    && forall i | 0 <= i < |entries| && entries[i].payload.Normal? ::
         && OpsBefore(entries, i) + |entries[i].payload.ops| <= |ops|
         && ops[OpsBefore(entries, i)..][..|entries[i].payload.ops|] == entries[i].payload.ops
  }

  lemma {:induction false} OpsLength(entries: seq<Entry>, n: nat)
    requires n <= |entries|
    ensures |Ops(entries[..n])| == OpsBefore(entries, n)
  {
    if n > 0 {
      OpsLength(entries, n - 1);
      assert entries[..n][..n - 1] == entries[..n - 1];
    }
  }

  lemma {:induction false} OpsPrefix(entries: seq<Entry>, i: nat, n: nat)
    requires i <= n <= |entries|
    ensures Ops(entries[..i]) <= Ops(entries[..n])
  {
    if i < n {
      OpsPrefix(entries, i, n - 1);
      assert entries[..n][..n - 1] == entries[..n - 1];
    }
  }

  lemma OpsListed(entries: seq<Entry>)
    ensures Lists(Ops(entries), entries)
  {
    forall i: nat | i < |entries| && entries[i].payload.Normal?
      ensures OpsBefore(entries, i) + |entries[i].payload.ops| <= |Ops(entries)|
      ensures Ops(entries)[OpsBefore(entries, i)..][..|entries[i].payload.ops|] == entries[i].payload.ops
    {
      OpsListedAt(entries, i);
    }
    assert entries[..|entries|] == entries;
    OpsLength(entries, |entries|);
  }

  lemma OpsCut(entries: seq<Entry>, i: nat)
    requires i < |entries|
    ensures Ops(entries[..i]) + EntryOps(entries[i]) <= Ops(entries)
  {
    OpsOfOne(entries, i);
    assert entries[..|entries|] == entries;
    OpsPrefix(entries, i + 1, |entries|);
  }

  lemma OpsListedAt(entries: seq<Entry>, i: nat)
    requires i < |entries|
    ensures entries[i].payload.Normal? ==>
              && OpsBefore(entries, i) + |entries[i].payload.ops| <= |Ops(entries)|
              && Ops(entries)[OpsBefore(entries, i)..][..|entries[i].payload.ops|] == entries[i].payload.ops
  {
    OpsLength(entries, i);
    OpsCut(entries, i);
    Middle(Ops(entries[..i]), EntryOps(entries[i]), Ops(entries));
  }

  lemma Middle(a: seq<Op>, b: seq<Op>, all: seq<Op>)
    requires a + b <= all
    ensures all[|a|..][..|b|] == b
  {
    assert all == a + b + all[|a + b|..];
  }

  lemma {:induction false} OpsConcat(a: seq<Entry>, b: seq<Entry>)
    ensures Ops(a + b) == Ops(a) + Ops(b)
  {
    if b == [] {
      assert a + b == a;
    } else {
      assert (a + b)[..|a + b| - 1] == a + b[..|b| - 1];
      OpsConcat(a, b[..|b| - 1]);
    }
  }

  lemma {:induction false} AdvanceConcat(m: Meta, a: seq<Entry>, b: seq<Entry>)
    ensures Advance(m, a + b) == Advance(Advance(m, a), b)
  {
    if b == [] {
      assert a + b == a;
    } else {
      assert (a + b)[..|a + b| - 1] == a + b[..|b| - 1];
      AdvanceConcat(m, a, b[..|b| - 1]);
    }
  }

  /** The metadata after a list of entries: the last one is applied, and the membership is that of
      the last membership entry, at its id. */
  lemma {:induction false} AdvanceMeans(m: Meta, entries: seq<Entry>)
    ensures Advance(m, entries).applied == if entries == [] then m.applied else Some(entries[|entries| - 1].id)
    ensures forall i | 0 <= i < |entries| && entries[i].payload.Membership? &&
                       (forall j | i < j < |entries| :: !entries[j].payload.Membership?) ::
              Advance(m, entries).membership == Stored(Some(entries[i].id), entries[i].payload.members)
    ensures (forall i | 0 <= i < |entries| :: !entries[i].payload.Membership?) ==>
              Advance(m, entries).membership == m.membership
  {
    if entries != [] {
      var init := entries[..|entries| - 1];
      AdvanceMeans(m, init);
      assert forall i | 0 <= i < |init| :: init[i] == entries[i];
    }
  }

  /** Counter values carry at least eight bytes: only this system writes them. */
  predicate OpsOk(ops: seq<Op>) { forall op | op in ops && op.Put? && IsCounterKey(op.key) :: |op.value| >= 8 }

  predicate StoreOk(kv: Store) { forall k | k in kv && IsCounterKey(k) :: |kv[k]| >= 8 }

  // ---- Staging ------------------------------------------------------------------------------

  /** The write batch (`None` for a removal; the last write to a key wins), the running maximum
      of every counter, and whether each clog key is already terminal. */
  datatype Pending = Pending(batch: map<Key, Option<Bytes>>, counters: map<Key, nat>, decided: map<Key, bool>)

  function Stage(data: Store, p: Pending, op: Op): Pending {
    match op
    case Put(k, v) =>
      if IsCounterKey(k) then
        var merged := Max(if k in p.counters then p.counters[k] else NumberAt(data, k), Number(v));
        p.(counters := p.counters[k := merged], batch := p.batch[k := Some(Encode(merged, 8))])
      else if IsClogKey(k) then
        if (if k in p.decided then p.decided[k] else TerminalAt(data, k)) then p.(decided := p.decided[k := true])
        else p.(batch := p.batch[k := Some(v)], decided := p.decided[k := Terminal(v)])
      else p.(batch := p.batch[k := Some(v)])
    case Delete(k) => p.(batch := p.batch[k := None])
  }

  function StageAll(data: Store, ops: seq<Op>): Pending {
    if ops == [] then Pending(map[], map[], map[]) else Stage(data, StageAll(data, ops[..|ops| - 1]), ops[|ops| - 1])
  }

  function Commit(data: Store, batch: map<Key, Option<Bytes>>): Store {
    map k | k in data.Keys + batch.Keys && (k in batch ==> batch[k].Some?) ::
      if k in batch then batch[k].value else data[k]
  }

  function Staged(data: Store, p: Pending, k: Key): Option<Bytes> { if k in p.batch then p.batch[k] else Get(data, k) }

  lemma CommitAt(data: Store, p: Pending, k: Key)
    ensures Get(Commit(data, p.batch), k) == Staged(data, p, k)
  {}

  function All(ops: seq<Op>, k: Key): seq<Bytes> { Before(ops, k) + Tail(ops, k) }

  lemma AllLast(ops: seq<Op>, k: Key)
    requires ops != []
    ensures var n := |ops| - 1;
            All(ops, k) == All(ops[..n], k) + (if ops[n].Put? && ops[n].key == k then [ops[n].value] else [])
  {}

  lemma HighestLast(s: nat, vs: seq<Bytes>, v: Bytes)
    ensures Highest(s, vs + [v]) == Max(Highest(s, vs), Number(v))
  {
    assert (vs + [v])[..|vs|] == vs;
  }

  lemma StageOther(data: Store, p: Pending, op: Op, k: Key)
    requires op.key != k
    ensures var p' := Stage(data, p, op);
            && Staged(data, p', k) == Staged(data, p, k)
            && (k in p'.counters <==> k in p.counters) && (k in p.counters ==> p'.counters[k] == p.counters[k])
            && (k in p'.decided <==> k in p.decided) && (k in p.decided ==> p'.decided[k] == p.decided[k])
  {}

  /** The pending counter is the maximum of the durable value and every put of the call,
      deletes notwithstanding. */
  lemma {:induction false} CounterTracked(data: Store, ops: seq<Op>, k: Key)
    requires IsCounterKey(k)
    ensures var p := StageAll(data, ops);
            && (k in p.counters <==> All(ops, k) != [])
            && (k in p.counters ==> p.counters[k] == Highest(NumberAt(data, k), All(ops, k)))
  {
    if ops != [] {
      var n := |ops| - 1;
      CounterTracked(data, ops[..n], k);
      AllLast(ops, k);
      if ops[n].key != k {
        StageOther(data, StageAll(data, ops[..n]), ops[n], k);
      } else if ops[n].Put? {
        HighestLast(NumberAt(data, k), All(ops[..n], k), ops[n].value);
      }
    }
  }

  lemma {:induction false} CounterStaged(data: Store, ops: seq<Op>, k: Key)
    requires IsCounterKey(k)
    ensures Staged(data, StageAll(data, ops), k) ==
            if Tail(ops, k) != [] then Some(Encode(Highest(NumberAt(data, k), All(ops, k)), 8))
            else if Deleted(ops, k) then None else Get(data, k)
  {
    if ops != [] {
      var n := |ops| - 1;
      DeletedLast(ops, k);
      AllLast(ops, k);
      CounterStaged(data, ops[..n], k);
      if ops[n].key != k {
        StageOther(data, StageAll(data, ops[..n]), ops[n], k);
      } else if ops[n].Put? {
        CounterTracked(data, ops, k);
      }
    }
  }

  predicate SomeTerminal(d: Option<Bytes>, vs: seq<Bytes>) { Decided(d) || exists v :: v in vs && Terminal(v) }

  lemma SomeTerminalLast(d: Option<Bytes>, vs: seq<Bytes>, v: Bytes)
    ensures SomeTerminal(d, vs + [v]) <==> SomeTerminal(d, vs) || Terminal(v)
  {}

  lemma SomeTerminalConcat(d: Option<Bytes>, a: seq<Bytes>, b: seq<Bytes>)
    ensures SomeTerminal(d, a + b) <==> SomeTerminal(d, a) || SomeTerminal(None, b)
  {}

  /** What the batch holds for a clog key: nothing new once a terminal value has been seen,
      even if the key has been deleted since. */
  function ClogValue(d: Option<Bytes>, deleted: bool, before: seq<Bytes>, tail: seq<Bytes>): Option<Bytes> {
    if !deleted then WriteOnce(d, tail)
    else if SomeTerminal(d, before) then None
    else WriteOnce(None, tail)
  }

  lemma {:induction false} DecidedStaged(data: Store, ops: seq<Op>, k: Key)
    requires IsClogKey(k)
    ensures var p := StageAll(data, ops);
            && (k in p.decided <==> All(ops, k) != [])
            && (k in p.decided ==> p.decided[k] == SomeTerminal(Get(data, k), All(ops, k)))
  {
    if ops != [] {
      var n := |ops| - 1;
      DecidedStaged(data, ops[..n], k);
      AllLast(ops, k);
      KeyClasses(ops[n].key);
      KeyClasses(k);
      if ops[n].Put? && ops[n].key == k { SomeTerminalLast(Get(data, k), All(ops[..n], k), ops[n].value); }
    }
  }

  lemma {:induction false} ClogStaged(data: Store, ops: seq<Op>, k: Key)
    requires IsClogKey(k)
    ensures Staged(data, StageAll(data, ops), k) ==
            ClogValue(Get(data, k), Deleted(ops, k), Before(ops, k), Tail(ops, k))
  {
    if ops == [] {
      assert Tail(ops, k) == [] && !Deleted(ops, k);
    } else {
      var n := |ops| - 1;
      ClogStaged(data, ops[..n], k);
      DeletedLast(ops, k);
      KeyClasses(ops[n].key);
      KeyClasses(k);
      if ops[n].key == k {
        if ops[n].Put? {
          DecidedStaged(data, ops[..n], k);
          if !Deleted(ops, k) { NoDeleteNoBefore(ops, k); }
          ClogPut(Get(data, k), Deleted(ops, k), Before(ops, k), Tail(ops[..n], k), ops[n].value);
        } else {
          assert Tail(ops, k) == [];
        }
      }
    }
  }

  lemma ClogPut(d: Option<Bytes>, deleted: bool, before: seq<Bytes>, tail: seq<Bytes>, v: Bytes)
    requires !deleted ==> before == []
    ensures ClogValue(d, deleted, before, tail + [v]) ==
            if SomeTerminal(d, before + tail) then ClogValue(d, deleted, before, tail) else Some(v)
  {
    var ws := tail + [v];
    assert ws[..|ws| - 1] == tail;
    SomeTerminalConcat(d, before, tail);
    DecidedBy(d, tail);
    DecidedBy(None, tail);
    if !deleted { assert before + tail == tail; }
  }

  lemma {:induction false} PlainStaged(data: Store, ops: seq<Op>, k: Key)
    requires !IsCounterKey(k) && !IsClogKey(k)
    ensures Staged(data, StageAll(data, ops), k) ==
            Puts(if Deleted(ops, k) then None else Get(data, k), k, Tail(ops, k))
  {
    if ops != [] {
      PlainStaged(data, ops[..|ops| - 1], k);
      DeletedLast(ops, k);
    }
  }

  // ---- The refinement -----------------------------------------------------------------------

  /** A counter or clog key put again after being deleted in the same call loses nothing: the
      puts since reach the old counter, and no terminal status was deleted. */
  predicate KeyOk(data: Store, ops: seq<Op>, k: Key) {
    Deleted(ops, k) && Tail(ops, k) != [] ==>
      && (IsCounterKey(k) ==> Highest(NumberAt(data, k), Before(ops, k)) <= Highest(0, Tail(ops, k)))
      && (IsClogKey(k) ==> !SomeTerminal(Get(data, k), Before(ops, k)))
  }

  lemma {:induction false} HighestConcat(s: nat, a: seq<Bytes>, b: seq<Bytes>)
    ensures Highest(s, a + b) == Max(Highest(s, a), Highest(0, b))
  {
    if b == [] {
      assert a + b == a;
    } else {
      var n := |b| - 1;
      assert (a + b)[..|a + b| - 1] == a + b[..n];
      HighestConcat(s, a, b[..n]);
    }
  }

  lemma CounterKeyExact(data: Store, ops: seq<Op>, k: Key)
    requires IsCounterKey(k)
    ensures Staged(data, StageAll(data, ops), k) == Get(Fold(data, ops), k) <==> KeyOk(data, ops, k)
  {
    KeyClasses(k);
    FoldAt(data, ops, k);
    CounterStaged(data, ops, k);
    if Deleted(ops, k) {
      CounterExact(NumberAt(data, k), Before(ops, k), Tail(ops, k));
    } else {
      NoDeleteNoBefore(ops, k);
      assert [] + Tail(ops, k) == Tail(ops, k);
    }
  }

  lemma ClogKeyExact(data: Store, ops: seq<Op>, k: Key)
    requires IsClogKey(k)
    ensures Staged(data, StageAll(data, ops), k) == Get(Fold(data, ops), k) <==> KeyOk(data, ops, k)
  {
    KeyClasses(k);
    FoldAt(data, ops, k);
    ClogStaged(data, ops, k);
    WriteOnceResult(None, Tail(ops, k));
  }

  /** Batched and op-by-op apply agree on a key exactly under its condition. */
  lemma KeyExact(data: Store, ops: seq<Op>, k: Key)
    ensures Get(Commit(data, StageAll(data, ops).batch), k) == Get(Fold(data, ops), k) <==> KeyOk(data, ops, k)
  {
    CommitAt(data, StageAll(data, ops), k);
    if IsCounterKey(k) {
      CounterKeyExact(data, ops, k);
    } else if IsClogKey(k) {
      ClogKeyExact(data, ops, k);
    } else {
      FoldAt(data, ops, k);
      PlainStaged(data, ops, k);
    }
  }

  lemma CounterExact(d: nat, before: seq<Bytes>, tail: seq<Bytes>)
    requires d < U64
    ensures Encode(Highest(d, before + tail), 8) == Encode(Highest(0, tail), 8) <==> Highest(d, before) <= Highest(0, tail)
  {
    HighestConcat(d, before, tail);
    NumberOfEncode(Highest(d, before + tail));
    NumberOfEncode(Highest(0, tail));
  }

  /** BATCHED APPLY REFINES OP-BY-OP APPLY: one durable call leaves the store the fold leaves
      exactly when every key meets its condition. */
  lemma BatchExact(data: Store, ops: seq<Op>)
    ensures Commit(data, StageAll(data, ops).batch) == Fold(data, ops) <==> forall k: Key :: KeyOk(data, ops, k)
  {
    var batched, folded := Commit(data, StageAll(data, ops).batch), Fold(data, ops);
    forall k: Key ensures Get(batched, k) == Get(folded, k) <==> KeyOk(data, ops, k) { KeyExact(data, ops, k); }
    if forall k: Key :: KeyOk(data, ops, k) { SameStore(batched, folded); }
  }

  lemma StoreStaysOk(data: Store, ops: seq<Op>)
    requires StoreOk(data)
    ensures StoreOk(Commit(data, StageAll(data, ops).batch))
  {
    var data' := Commit(data, StageAll(data, ops).batch);
    forall k | k in data' && IsCounterKey(k) ensures |data'[k]| >= 8 {
      CommitAt(data, StageAll(data, ops), k);
      CounterStaged(data, ops, k);
    }
  }

  /** No counter or clog key is put after being deleted in the call. */
  predicate NoRevival(ops: seq<Op>) {
    forall op | op in ops :: IsCounterKey(op.key) || IsClogKey(op.key) ==> !Deleted(ops, op.key) || Tail(ops, op.key) == []
  }

  function Calls(data: Store, calls: seq<seq<Op>>): Store {
    if calls == [] then data
    else var d := Calls(data, calls[..|calls| - 1]); Commit(d, StageAll(d, calls[|calls| - 1]).batch)
  }

  function Concat<T>(calls: seq<seq<T>>): seq<T> {
    if calls == [] then [] else Concat(calls[..|calls| - 1]) + calls[|calls| - 1]
  }

  /** However the log is cut into calls, the durable store is the fold of all its ops. */
  lemma {:induction false} AnySplit(data: Store, calls: seq<seq<Op>>)
    requires forall c | c in calls :: NoRevival(c)
    ensures Calls(data, calls) == Fold(data, Concat(calls))
  {
    if calls != [] {
      var n := |calls| - 1;
      AnySplit(data, calls[..n]);
      FoldConcat(data, Concat(calls[..n]), calls[n]);
      assert NoRevival(calls[n]);
      NoRevivalExact(Calls(data, calls[..n]), calls[n]);
    }
  }

  lemma NoRevivalExact(data: Store, ops: seq<Op>)
    requires NoRevival(ops)
    ensures Commit(data, StageAll(data, ops).batch) == Fold(data, ops)
  {
    forall k: Key ensures KeyOk(data, ops, k) {
      if Deleted(ops, k) { assert Delete(k).key == k; }
    }
    BatchExact(data, ops);
  }

  /** One `apply` call of the durable store on a list of entries. */
  function Applied(data: Store, entries: seq<Entry>): Store { Commit(data, StageAll(data, Ops(entries)).batch) }

  function EntryCalls(data: Store, meta: Meta, calls: seq<seq<Entry>>): (Store, Meta) {
    if calls == [] then (data, meta)
    else
      var (d, m) := EntryCalls(data, meta, calls[..|calls| - 1]);
      (Applied(d, calls[|calls| - 1]), Advance(m, calls[|calls| - 1]))
  }

  /** However the entries are cut into `apply` calls, the durable store and its metadata are those
      of the in-memory store fed the same log in one call. */
  lemma {:induction false} AnyEntrySplit(data: Store, meta: Meta, calls: seq<seq<Entry>>)
    requires forall c | c in calls :: NoRevival(Ops(c))
    ensures EntryCalls(data, meta, calls) == (Fold(data, Ops(Concat(calls))), Advance(meta, Concat(calls)))
  {
    if calls != [] {
      var n := |calls| - 1;
      AnyEntrySplit(data, meta, calls[..n]);
      OpsConcat(Concat(calls[..n]), calls[n]);
      AdvanceConcat(meta, Concat(calls[..n]), calls[n]);
      FoldConcat(data, Ops(Concat(calls[..n])), Ops(calls[n]));
      assert NoRevival(Ops(calls[n]));
      NoRevivalExact(EntryCalls(data, meta, calls[..n]).0, Ops(calls[n]));
    }
  }

  /** Dropping a table's sequence and creating it again in one call: the batch keeps the old
      counter, op-by-op apply starts afresh. */
  lemma RevivedSequence(k: Key, high: nat, low: nat)
    requires IsCounterKey(k) && low < high < U64
    ensures var ops := [Put(k, Encode(high, 8)), Delete(k), Put(k, Encode(low, 8))];
            NumberAt(Fold(map[], ops), k) == low && NumberAt(Commit(map[], StageAll(map[], ops).batch), k) == high
  {
    var h, l := Encode(high, 8), Encode(low, 8);
    var ops := [Put(k, h), Delete(k), Put(k, l)];
    RevivedParts(k, h, l);
    NumberOfEncode(high);
    NumberOfEncode(low);
    assert Highest(0, [l]) == low;
    HighestLast(0, [h], l);
    FoldAt(map[], ops, k);
    CounterStaged(map[], ops, k);
    CommitAt(map[], StageAll(map[], ops), k);
  }

  lemma RevivedParts(k: Key, h: Bytes, l: Bytes)
    ensures var ops := [Put(k, h), Delete(k), Put(k, l)];
            Deleted(ops, k) && Tail(ops, k) == [l] && All(ops, k) == [h] + [l]
  {
    var ops := [Put(k, h), Delete(k), Put(k, l)];
    assert ops[1] == Delete(k);
    assert ops[..2] == [Put(k, h), Delete(k)] && ops[..2][..1] == [Put(k, h)] && ops[..2][..1][..0] == [];
    assert Tail(ops[..2][..1], k) == [h] && Before(ops[..2][..1], k) == [];
    assert Tail(ops[..2], k) == [] && Before(ops[..2], k) == [h];
  }

  // ---- The stores ---------------------------------------------------------------------------

  lemma OpsOfOne(entries: seq<Entry>, i: nat)
    requires i < |entries|
    ensures Ops(entries[..i + 1]) == Ops(entries[..i]) + EntryOps(entries[i])
    ensures forall m: Meta :: Advance(m, entries[..i + 1]) == NextMeta(Advance(m, entries[..i]), entries[i])
  {
    assert entries[..i + 1][..i] == entries[..i];
  }

  lemma StageOne(data: Store, done: seq<Op>, ops: seq<Op>, j: nat)
    requires j < |ops|
    ensures StageAll(data, done + ops[..j + 1]) == Stage(data, StageAll(data, done + ops[..j]), ops[j])
    ensures Fold(data, done + ops[..j + 1]) == ApplyOp(Fold(data, done + ops[..j]), ops[j])
  {
    var s := done + ops[..j + 1];
    assert s[..|s| - 1] == done + ops[..j] && s[|s| - 1] == ops[j];
  }

  /** The in-memory store. */
  class StateMachine {
    var kv: Store
    var meta: Meta

    constructor ()
      ensures kv == map[] && meta == Meta(None, Stored(None, {}))
    {
      kv, meta := map[], Meta(None, Stored(None, {}));
    }

    method Apply(entries: seq<Entry>)
      requires OpsOk(Ops(entries)) && StoreOk(kv)
      modifies this
      ensures Lists(Ops(entries), entries) && kv == Fold(old(kv), Ops(entries))
      ensures meta == Advance(old(meta), entries)
      ensures entries != [] ==> meta.applied == Some(entries[|entries| - 1].id)
      ensures forall i | 0 <= i < |entries| && entries[i].payload.Membership? &&
                         (forall j | i < j < |entries| :: !entries[j].payload.Membership?) ::
                meta.membership == Stored(Some(entries[i].id), entries[i].payload.members)
      ensures (forall i | 0 <= i < |entries| :: !entries[i].payload.Membership?) ==> meta.membership == old(meta.membership)
    {
      for i := 0 to |entries|
        invariant kv == Fold(old(kv), Ops(entries[..i])) && meta == Advance(old(meta), entries[..i])
      {
        OpsOfOne(entries, i);
        ghost var done := Ops(entries[..i]);
        assert done + [] == done;
        meta := Meta(Some(entries[i].id), meta.membership);
        match entries[i].payload
        case Blank =>
        case Membership(ms) => meta := Meta(meta.applied, Stored(Some(entries[i].id), ms));
        case Normal(ops) =>
          assert done + ops[..0] == done;
          ghost var advanced := meta;
          for j := 0 to |ops|
            invariant kv == Fold(old(kv), done + ops[..j]) && meta == advanced
          {
            StageOne(old(kv), done, ops, j);
            kv := ApplyOp(kv, ops[j]);
          }
          assert ops[..|ops|] == ops;
      }
      assert entries[..|entries|] == entries;
      OpsListed(entries);
      AdvanceMeans(old(meta), entries);
    }
  }

  /** One op of the durable loop, against the pending maps. */
  method StageOp(data: Store, batch: map<Key, Option<Bytes>>, counters: map<Key, nat>, decided: map<Key, bool>, op: Op)
    returns (batch': map<Key, Option<Bytes>>, counters': map<Key, nat>, decided': map<Key, bool>)
    ensures Pending(batch', counters', decided') == Stage(data, Pending(batch, counters, decided), op)
  {
    batch', counters', decided' := batch, counters, decided;
    match op
    case Put(k, v) =>
      if IsCounterKey(k) {
        var cur := if k in counters then counters[k] else NumberAt(data, k);
        var merged := Max(cur, Number(v));
        counters' := counters[k := merged];
        batch' := batch[k := Some(Encode(merged, 8))];
      } else if IsClogKey(k) {
        var already := if k in decided then decided[k] else TerminalAt(data, k);
        if !already {
          batch' := batch[k := Some(v)];
          decided' := decided[k := Terminal(v)];
        } else {
          decided' := decided[k := true];
        }
      } else {
        batch' := batch[k := Some(v)];
      }
    case Delete(k) => batch' := batch[k := None];
  }

  method StageOps(data: Store, batch: map<Key, Option<Bytes>>, counters: map<Key, nat>, decided: map<Key, bool>,
                  ops: seq<Op>, ghost done: seq<Op>)
    returns (batch': map<Key, Option<Bytes>>, counters': map<Key, nat>, decided': map<Key, bool>)
    requires Pending(batch, counters, decided) == StageAll(data, done)
    ensures Pending(batch', counters', decided') == StageAll(data, done + ops)
  {
    batch', counters', decided' := batch, counters, decided;
    assert done + ops[..0] == done;
    for j := 0 to |ops|
      invariant Pending(batch', counters', decided') == StageAll(data, done + ops[..j])
    {
      StageOne(data, done, ops, j);
      batch', counters', decided' := StageOp(data, batch', counters', decided', ops[j]);
    }
    assert ops[..|ops|] == ops;
  }

  method StageEntries(data: Store, meta: Meta, entries: seq<Entry>) returns (batch: map<Key, Option<Bytes>>, m: Meta)
    ensures batch == StageAll(data, Ops(entries)).batch && m == Advance(meta, entries)
  {
    batch, m := map[], meta;
    var counters: map<Key, nat> := map[];
    var decided: map<Key, bool> := map[];
    for i := 0 to |entries|
      invariant Pending(batch, counters, decided) == StageAll(data, Ops(entries[..i]))
      invariant m == Advance(meta, entries[..i])
    {
      OpsOfOne(entries, i);
      ghost var done := Ops(entries[..i]);
      assert done + [] == done;
      m := m.(applied := Some(entries[i].id));
      match entries[i].payload
      case Blank =>
      case Membership(ms) => m := m.(membership := Stored(m.applied, ms));
      case Normal(ops) => batch, counters, decided := StageOps(data, batch, counters, decided, ops, done);
    }
    assert entries[..|entries|] == entries;
  }

  /** The durable store: `data` and the persisted metadata change only when a batch commits. */
  class DurableStateMachine {
    var data: Store
    var persisted: Meta
    var meta: Meta

    constructor ()
      ensures data == map[] && persisted == meta == Meta(None, Stored(None, {}))
    {
      data, persisted, meta := map[], Meta(None, Stored(None, {})), Meta(None, Stored(None, {}));
    }

    method Apply(entries: seq<Entry>)
      requires OpsOk(Ops(entries)) && StoreOk(data)
      modifies this
      ensures Lists(Ops(entries), entries) && data == Applied(old(data), entries)
      ensures (forall k: Key :: KeyOk(old(data), Ops(entries), k)) <==> data == Fold(old(data), Ops(entries))
      ensures meta == Advance(old(meta), entries) && persisted == meta && StoreOk(data)
      ensures entries != [] ==> meta.applied == Some(entries[|entries| - 1].id)
      ensures forall i | 0 <= i < |entries| && entries[i].payload.Membership? &&
                         (forall j | i < j < |entries| :: !entries[j].payload.Membership?) ::
                meta.membership == Stored(Some(entries[i].id), entries[i].payload.members)
      ensures (forall i | 0 <= i < |entries| :: !entries[i].payload.Membership?) ==> meta.membership == old(meta.membership)
    {
      AdvanceMeans(meta, entries);
      OpsListed(entries);
      StoreStaysOk(data, Ops(entries));
      var batch, m := StageEntries(data, meta, entries);
      BatchExact(data, Ops(entries));
      data, persisted := Commit(data, batch), m;
      meta := m;
    }

    /** A snapshot is authoritative: it replaces the whole store, counters included. */
    method InstallSnapshot(kv: seq<(Key, Bytes)>, m: Meta)
      modifies this
      ensures data == FromPairs(kv) && meta == m && persisted == m
    {
      var loaded: Store := map[];
      for i := 0 to |kv|
        invariant loaded == FromPairs(kv[..i])
      {
        assert kv[..i + 1][..i] == kv[..i];
        loaded := loaded[kv[i].0 := kv[i].1];
      }
      assert kv[..|kv|] == kv;
      data, persisted, meta := loaded, m, m;
    }
  }

  function FromPairs(kv: seq<(Key, Bytes)>): Store {
    if kv == [] then map[] else FromPairs(kv[..|kv| - 1])[kv[|kv| - 1].0 := kv[|kv| - 1].1]
  }

  /** `kv` lists the store's contents, each key once. */
  ghost predicate ListsStore(kv: seq<(Key, Bytes)>, store: Store) {
    && (forall i | 0 <= i < |kv| :: kv[i].0 in store && store[kv[i].0] == kv[i].1)
    && (forall k | k in store :: exists i :: 0 <= i < |kv| && kv[i].0 == k)
  }

  lemma {:induction false} FromPairsAt(kv: seq<(Key, Bytes)>, store: Store, k: Key)
    requires forall i | 0 <= i < |kv| :: kv[i].0 in store && store[kv[i].0] == kv[i].1
    ensures k in FromPairs(kv) <==> exists i :: 0 <= i < |kv| && kv[i].0 == k
    ensures k in FromPairs(kv) ==> k in store && FromPairs(kv)[k] == store[k]
  {
    if kv != [] {
      var n := |kv| - 1;
      FromPairsAt(kv[..n], store, k);
      assert forall i | 0 <= i < n :: kv[..n][i] == kv[i];
    }
  }

  /** Installing a snapshot built from a store, listed in any order, reproduces it. */
  lemma SnapshotRestores(kv: seq<(Key, Bytes)>, store: Store)
    requires ListsStore(kv, store)
    ensures FromPairs(kv) == store
  {
    forall k: Key ensures Get(FromPairs(kv), k) == Get(store, k) { FromPairsAt(kv, store, k); }
    SameStore(FromPairs(kv), store);
  }
}
