/** Transaction ids, global transaction ids and rowids across restarts and leader changes. */
module Ids {
  import opened Base
  import opened BigEndian
  import opened Visibility
  import opened Apply

  datatype Mode = Durable | Replicated

  // ---- Durable mode ---------------------------------------------------------------------------

  class ProcArray {
    var disk: Store
    var next: Xid
    var running: set<Xid>
    const mode: Mode

    ghost predicate Valid()
      reads this
    {
      && 0 < next < U64 && (forall x | x in running :: x < next)
      && (mode == Durable ==> Seeded(disk) == next)
    }

    /** `open`: seed the counter from the store; nothing runs yet. */
    constructor (disk: Store, mode: Mode)
      ensures this.disk == disk && this.mode == mode && running == {} && next == Seeded(disk)
    {
      this.disk, this.mode, this.running, this.next := disk, mode, {}, Seeded(disk);
    }

    method BeginWrite() returns (x: Xid)
      requires Valid() && next + 1 < U64
      modifies this
      ensures Valid() && x == old(next) && next == x + 1 && running == old(running) + {x}
      ensures x !in old(running)
      ensures mode == Replicated ==> disk == old(disk)
      ensures mode == Durable ==> NumberAt(disk, NEXT_XID) == x + 1
      ensures forall k | k != NEXT_XID :: Get(disk, k) == Get(old(disk), k)
    {
      x := next;
      if mode == Durable {
        disk := disk[NEXT_XID := Encode(x + 1, 8)];
        NumberOfEncode(x + 1);
      }
      next := x + 1;
      running := running + {x};
    }

    /** Lift-only: never below what this node has handed out. */
    method ReseedFromApplied(applied: Store)
      requires mode == Replicated && Valid()
      modifies this
      ensures Valid() && running == old(running)
      ensures old(next) <= next && Seeded(applied) <= next && (next == old(next) || next == Seeded(applied))
    {
      next := Max(next, Seeded(applied));
    }

    method Finish(x: Xid)
      requires Valid()
      modifies this`running
      ensures Valid() && running == old(running) - {x}
    {
      running := running - {x};
    }

    /** `snapshot`: everything below `xmax` and not listed has finished. */
    method TakeSnapshot() returns (snap: Snapshot)
      requires Valid()
      ensures forall x: Xid :: snap.IsRunning(x) <==> x in running || x >= next
    {
      snap := Snapshot(next, running);
    }
  }

  /** The stored counter, 1 when absent or 0. */
  function Seeded(kv: Store): (n: Xid)
    ensures 0 < n < U64
  {
    Max(NumberAt(kv, NEXT_XID), 1)
  }

  /** Durable-mode xids are distinct over every run with restarts: they come out strictly
      increasing, whenever the process is stopped and reopened. */
  method IssueXids(restartBefore: seq<bool>) returns (issued: seq<Xid>)
    requires |restartBefore| < U64 - 2
    ensures |issued| == |restartBefore|
    ensures forall i, j | 0 <= i < j < |issued| :: issued[i] < issued[j]
    ensures forall i | 0 <= i < |issued| :: issued[i] == i + 1
  {
    issued := [];
    var pa := new ProcArray(map[], Durable);
    for i := 0 to |restartBefore|
      invariant fresh(pa) && pa.mode == Durable && pa.Valid() && |issued| == i && pa.next == i + 1
      invariant forall a, b | 0 <= a < b < i :: issued[a] < issued[b]
      invariant forall a | 0 <= a < i :: issued[a] == a + 1 < pa.next
    {
      if restartBefore[i] { pa := new ProcArray(pa.disk, Durable); }
      var x := pa.BeginWrite();
      issued := issued + [x];
    }
  }

  // ---- Rowids -----------------------------------------------------------------------------------

  function SeqKey(table: nat): (k: Key)
    ensures IsCounterKey(k)
  {
    SEQ + Encode(table, 4)
  }

  lemma SeqKeyUnique(a: nat, b: nat)
    requires a < U32 && b < U32 && SeqKey(a) == SeqKey(b)
    ensures a == b
  {
    U64IsPow();
    ValueOfEncode(a, 4);
    ValueOfEncode(b, 4);
    assert SeqKey(a)[|SEQ|..] == Encode(a, 4) && SeqKey(b)[|SEQ|..] == Encode(b, 4);
  }

  /** The stored next rowid, 1 when absent. */
  function ReadSeq(kv: Store, table: nat): nat { if SeqKey(table) in kv then Number(kv[SeqKey(table)]) else 1 }

  class SequenceManager {
    var cache: map<nat, nat>
    const mode: Mode

    constructor (mode: Mode)
      ensures cache == map[] && this.mode == mode
    {
      cache, this.mode := map[], mode;
    }

    function Next(kv: Store, table: nat): nat
      reads this
    {
      if table in cache then cache[table] else ReadSeq(kv, table)
    }

    /** `alloc`: reserve `count` rowids; in durable mode the store moves first. */
    method Alloc(kv: Store, table: nat, count: nat) returns (start: nat, op: Option<Op>, kv': Store)
      requires Next(kv, table) + count < U64
      modifies this
      ensures start == old(Next(kv, table)) && cache == old(cache)[table := start + count]
      ensures op == if mode == Durable then None else Some(Put(SeqKey(table), Encode(start + count, 8)))
      ensures kv' == if mode == Durable then SeqStored(kv, table, start + count) else kv
    {
      start := Next(kv, table);
      var put := Put(SeqKey(table), Encode(start + count, 8));
      kv', op := kv, Some(put);
      if mode == Durable { kv', op := kv[put.key := put.value], None; }
      cache := cache[table := start + count];
    }

    method ReseedFromApplied()
      modifies this
      ensures cache == map[]
    {
      cache := map[];
    }
  }

  datatype Request = Request(table: nat, count: nat, restart: bool)
  datatype Block = Block(table: nat, start: nat, count: nat)

  /** The highest rowid the requests can reach. */
  function Total(reqs: seq<Request>): nat {
    if reqs == [] then 1 else Total(reqs[..|reqs| - 1]) + reqs[|reqs| - 1].count
  }

  /** The blocks of each table are disjoint, in increasing order, and below the stored counter. */
  ghost predicate BlocksOk(blocks: seq<Block>, kv: Store) {
    && (forall i, j | 0 <= i < j < |blocks| && blocks[i].table == blocks[j].table ::
          blocks[i].start + blocks[i].count <= blocks[j].start)
    && (forall i | 0 <= i < |blocks| ::
          blocks[i].table < U32 && blocks[i].start + blocks[i].count <= ReadSeq(kv, blocks[i].table))
  }

  function SeqStored(kv: Store, table: nat, next: nat): Store { kv[SeqKey(table) := Encode(next, 8)] }

  lemma SeqStoredReads(kv: Store, table: nat, next: nat, other: nat)
    requires table < U32 && other < U32 && next < U64
    ensures ReadSeq(SeqStored(kv, table, next), other) == if other == table then next else ReadSeq(kv, other)
  {
    NumberOfEncode(next);
    if SeqKey(other) == SeqKey(table) { SeqKeyUnique(other, table); }
  }

  lemma BlockAdded(blocks: seq<Block>, kv: Store, table: nat, count: nat)
    requires BlocksOk(blocks, kv) && table < U32 && ReadSeq(kv, table) + count < U64
    ensures BlocksOk(blocks + [Block(table, ReadSeq(kv, table), count)], SeqStored(kv, table, ReadSeq(kv, table) + count))
  {
    var start := ReadSeq(kv, table);
    var blocks' := blocks + [Block(table, start, count)];
    forall i | 0 <= i < |blocks'|
      ensures blocks'[i].start + blocks'[i].count <= ReadSeq(SeqStored(kv, table, start + count), blocks'[i].table)
    {
      SeqStoredReads(kv, table, start + count, blocks'[i].table);
    }
  }

  /** The cache agrees with the store, and no counter has passed `top`. */
  ghost predicate InStep(cache: map<nat, nat>, kv: Store, top: nat) {
    && (forall t | t in cache :: t < U32 && cache[t] == ReadSeq(kv, t))
    && (forall t: nat | t < U32 :: ReadSeq(kv, t) <= top)
  }

  lemma StaysInStep(cache: map<nat, nat>, kv: Store, top: nat, table: nat, count: nat)
    requires InStep(cache, kv, top) && table < U32 && top + count < U64
    ensures InStep(cache[table := ReadSeq(kv, table) + count], SeqStored(kv, table, ReadSeq(kv, table) + count), top + count)
  {
    var kv' := SeqStored(kv, table, ReadSeq(kv, table) + count);
    forall t: nat | t < U32
      ensures ReadSeq(kv', t) == if t == table then ReadSeq(kv, table) + count else ReadSeq(kv, t)
    {
      SeqStoredReads(kv, table, ReadSeq(kv, table) + count, t);
    }
  }

  /** Durable-mode rowid blocks of a table never overlap, over every run with restarts. */
  method IssueRowids(reqs: seq<Request>) returns (blocks: seq<Block>)
    requires Total(reqs) < U64 && forall r | r in reqs :: r.table < U32
    ensures |blocks| == |reqs|
    ensures forall i | 0 <= i < |reqs| :: blocks[i].table == reqs[i].table && blocks[i].count == reqs[i].count
    ensures forall i, j | 0 <= i < j < |blocks| && blocks[i].table == blocks[j].table ::
              blocks[i].start + blocks[i].count <= blocks[j].start
  {
    blocks := [];
    var kv: Store := map[];
    var seqs := new SequenceManager(Durable);
    for n := 0 to |reqs|
      invariant fresh(seqs) && seqs.mode == Durable && |blocks| == n
      invariant forall i | 0 <= i < n :: blocks[i].table == reqs[i].table && blocks[i].count == reqs[i].count
      invariant InStep(seqs.cache, kv, Total(reqs[..n])) && BlocksOk(blocks, kv)
    {
      if reqs[n].restart { seqs := new SequenceManager(Durable); }
      TotalStep(reqs, n);
      assert reqs[n] in reqs;
      blocks, kv := IssueBlock(seqs, kv, blocks, reqs[n], Total(reqs[..n]));
    }
  }

  method IssueBlock(seqs: SequenceManager, kv: Store, blocks: seq<Block>, req: Request, ghost top: nat)
    returns (blocks': seq<Block>, kv': Store)
    requires seqs.mode == Durable && req.table < U32 && top + req.count < U64
    requires InStep(seqs.cache, kv, top) && BlocksOk(blocks, kv)
    modifies seqs
    ensures InStep(seqs.cache, kv', top + req.count) && BlocksOk(blocks', kv')
    ensures |blocks'| == |blocks| + 1 && blocks'[..|blocks|] == blocks
    ensures blocks'[|blocks|].table == req.table && blocks'[|blocks|].count == req.count
  {
    BlockAdded(blocks, kv, req.table, req.count);
    StaysInStep(seqs.cache, kv, top, req.table, req.count);
    var start, _, after := seqs.Alloc(kv, req.table, req.count);
    assert start == ReadSeq(kv, req.table);
    blocks', kv' := blocks + [Block(req.table, start, req.count)], after;
    assert kv' == SeqStored(kv, req.table, ReadSeq(kv, req.table) + req.count);
  }

  lemma {:induction false} TotalStep(reqs: seq<Request>, n: nat)
    requires n < |reqs|
    ensures Total(reqs[..n + 1]) == Total(reqs[..n]) + reqs[n].count && Total(reqs[..n + 1]) <= Total(reqs)
    decreases |reqs| - n
  {
    assert reqs[..n + 1][..n] == reqs[..n];
    if n + 1 < |reqs| { TotalStep(reqs, n + 1); } else { assert reqs[..n + 1] == reqs; }
  }

  predicate Disjoint(a: Block, b: Block) {
    a.table != b.table || a.start + a.count <= b.start || b.start + b.count <= a.start
  }

  /** EXACT CONDITION for a replicated reseed: it drops the cache instead of lifting it, so the
      next block starts at the applied counter; that block avoids one handed out before exactly
      when the earlier block's counter write has been applied. */
  method AllocAcrossReseed(seqs: SequenceManager, kv: Store, applied: Store, table: nat, before: nat, after: nat)
    returns (a: Block, b: Block)
    requires seqs.mode == Replicated && before > 0 && after > 0
    requires seqs.Next(kv, table) + before < U64 && ReadSeq(applied, table) + after < U64
    requires seqs.Next(kv, table) <= ReadSeq(applied, table)
    modifies seqs
    ensures a.table == b.table == table && a.count == before && b.count == after
    ensures Disjoint(a, b) <==> a.start + a.count <= ReadSeq(applied, table)
  {
    var first, _, _ := seqs.Alloc(kv, table, before);
    a := Block(table, first, before);
    seqs.ReseedFromApplied();
    var second, _, _ := seqs.Alloc(applied, table, after);
    b := Block(table, second, after);
  }

  // ---- Replicated mode ------------------------------------------------------------------------

  /** A run of consecutive ids: one xid, or the rowids of one allocation. */
  datatype Span = Span(first: nat, count: nat) {
    function End(): nat { first + count }
  }

  predicate Apart(a: Span, b: Span) { a.End() <= b.first || b.End() <= a.first }

  /** A committed batch: the ids it records and the counter value folded into it, if any. */
  datatype Batch = Batch(span: Span, counter: Option<nat>)

  function CounterOps(log: seq<Batch>, key: Key): seq<Op> {
    if log == [] then []
    else
      var c := log[|log| - 1].counter;
      CounterOps(log[..|log| - 1], key) + if c.Some? then [Put(key, Encode(c.value, 8))] else []
  }

  /** A counter was read after the ids were taken. */
  ghost predicate BuiltOk(log: seq<Batch>) {
    forall i | 0 <= i < |log| :: 0 < log[i].span.first && 0 < log[i].span.count && log[i].span.End() < U64 &&
                                 (log[i].counter.Some? ==> log[i].span.End() <= log[i].counter.value < U64)
  }

  /** The counter a store has once it has applied the log, 1 when it has none. */
  function Applied(log: seq<Batch>, key: Key): (n: nat)
    ensures 0 < n
  {
    Max(Stored(log, key), 1)
  }

  lemma {:induction false} CounterOpsHas(log: seq<Batch>, key: Key)
    ensures !Deleted(CounterOps(log, key), key)
    ensures forall i | 0 <= i < |log| && log[i].counter.Some? ::
              Put(key, Encode(log[i].counter.value, 8)) in CounterOps(log, key)
  {
    if log != [] {
      var n := |log| - 1;
      CounterOpsHas(log[..n], key);
      assert forall i | 0 <= i < n :: log[..n][i] == log[i];
    }
  }

  /** MAX-MERGE: in whatever order the batches of all leaders commit, the applied counter is at least
      every counter they carry. */
  lemma AppliedAbove(log: seq<Batch>, key: Key, i: nat)
    requires BuiltOk(log) && IsCounterKey(key) && i < |log| && log[i].counter.Some?
    ensures log[i].counter.value <= Applied(log, key)
  {
    var ops := CounterOps(log, key);
    CounterOpsHas(log, key);
    Monotone(map[], ops, key);
    NumberOfEncode(log[i].counter.value);
  }

  /** The counter in the store, 0 when it has none. */
  function Stored(log: seq<Batch>, key: Key): nat { NumberAt(Fold(map[], CounterOps(log, key)), key) }

  lemma StoredStep(log: seq<Batch>, key: Key)
    requires log != [] && BuiltOk(log) && IsCounterKey(key) && Stored(log[..|log| - 1], key) < U64
    ensures var n := |log| - 1;
            Stored(log, key) == Max(Stored(log[..n], key), if log[n].counter.Some? then log[n].counter.value else 0)
  {
    var n := |log| - 1;
    var ops := CounterOps(log, key);
    if log[n].counter.Some? {
      assert ops[..|ops| - 1] == CounterOps(log[..n], key);
      NumberOfEncode(log[n].counter.value);
      NumberOfEncode(Max(Stored(log[..n], key), log[n].counter.value));
    } else {
      assert ops == CounterOps(log[..n], key);
    }
  }

  /** And it is one of them. */
  lemma {:induction false} AppliedIsCarried(log: seq<Batch>, key: Key)
    requires BuiltOk(log) && IsCounterKey(key)
    ensures Stored(log, key) == 0 || exists i :: 0 <= i < |log| && log[i].counter == Some(Stored(log, key))
    ensures Stored(log, key) < U64
  {
    if log != [] {
      var n := |log| - 1;
      AppliedIsCarried(log[..n], key);
      StoredStep(log, key);
      if Stored(log, key) == Stored(log[..n], key) != 0 {
        var i :| 0 <= i < n && log[..n][i].counter == Some(Stored(log[..n], key));
        assert log[i].counter == Some(Stored(log, key));
      } else if Stored(log, key) != 0 {
        assert log[n].counter == Some(Stored(log, key));
      }
    }
  }

  /** Some batch carries a counter at or past `s`. */
  ghost predicate Carries(log: seq<Batch>, s: Span) {
    exists i :: 0 <= i < |log| && log[i].counter.Some? && s.End() <= log[i].counter.value
  }

  /** EXACT CONDITION for the applied counter: it lies above some ids exactly when a batch carries a
      counter that does. */
  lemma AppliedPastIff(log: seq<Batch>, key: Key, s: Span)
    requires BuiltOk(log) && IsCounterKey(key) && 1 < s.End()
    ensures s.End() <= Applied(log, key) <==> Carries(log, s)
  {
    AppliedIsCarried(log, key);
    if Carries(log, s) {
      var i :| 0 <= i < |log| && log[i].counter.Some? && s.End() <= log[i].counter.value;
      AppliedAbove(log, key, i);
    }
  }

  /** What a node keeps in memory: the counter, the ids its sessions took since it last rose and
      those they took before. */
  datatype Memory = Memory(next: nat, own: set<Span>, earlier: set<Span>)

  /** The counter under `key`; `lift` when a reseed only raises the counter in memory, as for xids,
      and not when it drops it for the applied one, as for rowids. */
  datatype Cluster = Cluster(key: Key, lift: bool, log: seq<Batch>, nodes: map<nat, Memory>, leader: Option<nat>)

  datatype Action = Take(n: nat, count: nat) | Commit(n: nat, s: Span, v: Option<nat>) | Rise(n: nat) | Crash(n: nat)

  /** Any node may take ids; only the leader's batches commit, whenever their ids were taken. */
  ghost predicate Enabled(c: Cluster, act: Action) {
    act.n in c.nodes &&
    match act
    case Take(n, count) => 0 < count && c.nodes[n].next + count < U64
    case Commit(n, s, v) =>
      && c.leader == Some(n) && s in c.nodes[n].own + c.nodes[n].earlier
      && (v.Some? ==> s.End() <= v.value <= Max(c.nodes[n].next, s.End()))
    case Rise(n) => true
    case Crash(n) => true
  }

  function Reseeded(c: Cluster, m: Memory): Memory {
    var applied := Applied(c.log, c.key);
    Memory(if c.lift then Max(m.next, applied) else applied, {}, m.earlier + m.own)
  }

  /** A new leader reseeds from a store that has applied the whole log, and keeps its sessions; a
      crash loses them. */
  function Next(c: Cluster, act: Action): Cluster
    requires act.n in c.nodes
  {
    var m := c.nodes[act.n];
    match act
    case Take(n, count) => c.(nodes := c.nodes[n := m.(next := m.next + count, own := m.own + {Span(m.next, count)})])
    case Commit(n, s, v) =>
      c.(log := c.log + [Batch(s, v)], nodes := c.nodes[n := m.(own := m.own - {s}, earlier := m.earlier - {s})])
    case Rise(n) => c.(leader := Some(n), nodes := c.nodes[n := Reseeded(c, m)])
    case Crash(n) => c.(leader := if c.leader == Some(n) then None else c.leader, nodes := c.nodes[n := Memory(1, {}, {})])
  }

  ghost predicate Run(states: seq<Cluster>, acts: seq<Action>) {
    && |states| == |acts| + 1 && IsCounterKey(states[0].key) && states[0].log == [] && states[0].leader == None
    && (forall n | n in states[0].nodes :: states[0].nodes[n] == Memory(1, {}, {}))
    && forall i | 0 <= i < |acts| :: Enabled(states[i], acts[i]) && states[i + 1] == Next(states[i], acts[i])
  }

  ghost predicate Distinct(log: seq<Batch>) {
    forall i, j | 0 <= i < j < |log| :: Apart(log[i].span, log[j].span)
  }

  /** The ids are those of no batch on the log: for an xid, it has no record yet. */
  ghost predicate Unused(log: seq<Batch>, s: Span) { forall i | 0 <= i < |log| :: Apart(log[i].span, s) }

  /** The condition of a commit: nobody has used its ids. */
  ghost predicate CommitOk(c: Cluster, act: Action)
    requires Enabled(c, act)
  {
    act.Commit? ==> Unused(c.log, act.s)
  }

  /** The condition of a rise: the counter in memory or the applied one lies above every committed id. */
  ghost predicate RiseOk(c: Cluster, act: Action)
    requires Enabled(c, act)
  {
    act.Rise? ==> forall i | 0 <= i < |c.log| :: c.log[i].span.End() <= Reseeded(c, c.nodes[act.n]).next
  }

  ghost predicate SpansOk(m: Memory, lift: bool) {
    && 0 < m.next < U64
    && (forall s | s in m.own :: 0 < s.first && 0 < s.count && s.End() <= m.next)
    && (forall s | s in m.earlier :: 0 < s.first && 0 < s.count && s.End() < U64)
    && (forall s, t | s in m.own && t in m.own && s != t :: Apart(s, t))
    && (lift ==> (forall s | s in m.earlier :: s.End() <= m.next) &&
                 (forall e, s | e in m.earlier && s in m.own :: e.End() <= s.first))
  }

  /** The leader's counter lies above every committed id, and no id it took since it rose is used. */
  ghost predicate Above(c: Cluster) {
    c.leader.Some? ==>
      && c.leader.value in c.nodes
      && (forall i | 0 <= i < |c.log| :: c.log[i].span.End() <= c.nodes[c.leader.value].next)
      && (forall s | s in c.nodes[c.leader.value].own :: Unused(c.log, s))
  }

  ghost predicate Inv(c: Cluster) {
    IsCounterKey(c.key) && BuiltOk(c.log) && forall n | n in c.nodes :: SpansOk(c.nodes[n], c.lift)
  }

  lemma AppliedBounded(log: seq<Batch>, key: Key)
    requires BuiltOk(log) && IsCounterKey(key)
    ensures Applied(log, key) < U64
  {
    AppliedIsCarried(log, key);
  }

  lemma ReseededSpans(c: Cluster, m: Memory)
    requires SpansOk(m, c.lift) && Applied(c.log, c.key) < U64
    ensures SpansOk(Reseeded(c, m), c.lift)
  {}

  lemma NodeKeepsInv(c: Cluster, n: nat, m: Memory, leader: Option<nat>)
    requires Inv(c) && n in c.nodes && SpansOk(m, c.lift)
    ensures Inv(c.(leader := leader, nodes := c.nodes[n := m]))
  {}

  lemma CommitKeepsInv(c: Cluster, n: nat, s: Span, v: Option<nat>)
    requires Inv(c) && Enabled(c, Commit(n, s, v))
    ensures Inv(Next(c, Commit(n, s, v)))
  {
    var m := c.nodes[n];
    assert SpansOk(m, c.lift);
    assert SpansOk(m.(own := m.own - {s}, earlier := m.earlier - {s}), c.lift);
    assert BuiltOk(c.log + [Batch(s, v)]);
  }

  lemma StepKeepsInv(c: Cluster, act: Action)
    requires Inv(c) && Enabled(c, act)
    ensures Inv(Next(c, act))
  {
    var m := c.nodes[act.n];
    assert SpansOk(m, c.lift);
    match act
    case Take(n, count) => NodeKeepsInv(c, n, m.(next := m.next + count, own := m.own + {Span(m.next, count)}), c.leader);
    case Commit(n, s, v) => CommitKeepsInv(c, n, s, v);
    case Rise(n) =>
      AppliedBounded(c.log, c.key);
      ReseededSpans(c, m);
      NodeKeepsInv(c, n, Reseeded(c, m), Some(n));
    case Crash(n) => NodeKeepsInv(c, n, Memory(1, {}, {}), Next(c, act).leader);
  }

  lemma {:induction false} RunKeepsInv(states: seq<Cluster>, acts: seq<Action>, i: nat)
    requires Run(states, acts) && i <= |acts|
    ensures Inv(states[i]) && states[i].lift == states[0].lift
  {
    if i > 0 {
      RunKeepsInv(states, acts, i - 1);
      StepKeepsInv(states[i - 1], acts[i - 1]);
      assert states[i] == Next(states[i - 1], acts[i - 1]);
    }
  }

  // ---- The leader's counter -------------------------------------------------------------------

  /** What the leader commits from before its rise lies below its counter: always when a reseed only
      lifts it. */
  ghost predicate Steady(c: Cluster, act: Action)
    requires Enabled(c, act)
  {
    c.lift || (act.Commit? ==> act.s in c.nodes[act.n].own)
  }

  lemma TakeKeepsAbove(c: Cluster, n: nat, count: nat)
    requires Inv(c) && Above(c) && Enabled(c, Take(n, count))
    ensures Above(Next(c, Take(n, count)))
  {}

  lemma CommitKeepsAbove(c: Cluster, n: nat, s: Span, v: Option<nat>)
    requires Inv(c) && Above(c) && Enabled(c, Commit(n, s, v)) && Steady(c, Commit(n, s, v))
    ensures Above(Next(c, Commit(n, s, v)))
  {
    var c' := Next(c, Commit(n, s, v));
    assert SpansOk(c.nodes[n], c.lift);
    forall t | t in c'.nodes[n].own ensures Unused(c'.log, t) {
      assert Unused(c.log, t) && Apart(s, t);
    }
  }

  /** The leader's counter stays above every committed id, and what it took since it rose unused,
      exactly when every rise meets its condition. */
  lemma AboveIff(c: Cluster, act: Action)
    requires Inv(c) && Above(c) && Enabled(c, act) && Steady(c, act)
    ensures Above(Next(c, act)) <==> RiseOk(c, act)
  {
    match act
    case Take(n, count) => TakeKeepsAbove(c, n, count);
    case Commit(n, s, v) => CommitKeepsAbove(c, n, s, v);
    case Rise(n) =>
    case Crash(n) =>
  }

  /** The first `i` steps. */
  ghost predicate AllSteady(states: seq<Cluster>, acts: seq<Action>, i: nat)
    requires Run(states, acts) && i <= |acts|
  {
    forall j | 0 <= j < i :: Steady(states[j], acts[j])
  }

  ghost predicate AllRiseOk(states: seq<Cluster>, acts: seq<Action>, i: nat)
    requires Run(states, acts) && i <= |acts|
  {
    forall j | 0 <= j < i :: RiseOk(states[j], acts[j])
  }

  lemma RunAboveStep(states: seq<Cluster>, acts: seq<Action>, i: nat)
    requires Run(states, acts) && i < |acts| && Above(states[i]) && Steady(states[i], acts[i])
    ensures Above(states[i + 1]) <==> RiseOk(states[i], acts[i])
  {
    RunKeepsInv(states, acts, i);
    AboveIff(states[i], acts[i]);
  }

  lemma {:induction false} RunAbove(states: seq<Cluster>, acts: seq<Action>, i: nat)
    requires Run(states, acts) && i <= |acts| && AllSteady(states, acts, i)
    ensures (forall j | 0 <= j <= i :: Above(states[j])) <==> AllRiseOk(states, acts, i)
  {
    if i > 0 {
      RunAbove(states, acts, i - 1);
      if AllRiseOk(states, acts, i - 1) { RunAboveStep(states, acts, i - 1); }
    }
  }

  // ---- Distinct ids -----------------------------------------------------------------------------

  lemma StaysMixed(c: Cluster, act: Action)
    requires Enabled(c, act) && !Distinct(c.log)
    ensures !Distinct(Next(c, act).log)
  {
    var log' := Next(c, act).log;
    var i, j :| 0 <= i < j < |c.log| && !Apart(c.log[i].span, c.log[j].span);
    assert log'[i] == c.log[i] && log'[j] == c.log[j];
  }

  /** A commit keeps the committed ids distinct exactly when nobody has used its ids. */
  lemma StepIff(c: Cluster, act: Action)
    requires Enabled(c, act)
    ensures Distinct(Next(c, act).log) <==> Distinct(c.log) && CommitOk(c, act)
  {
    if !Distinct(c.log) {
      StaysMixed(c, act);
    } else if act.Commit? {
      var log' := c.log + [Batch(act.s, act.v)];
      if Distinct(log') {
        forall i | 0 <= i < |c.log| ensures Apart(c.log[i].span, act.s) { assert Apart(log'[i].span, log'[|c.log|].span); }
      }
    }
  }

  ghost predicate AllOk(states: seq<Cluster>, acts: seq<Action>, i: nat)
    requires Run(states, acts) && i <= |acts|
  {
    forall j | 0 <= j < i :: OkAt(states, acts, j)
  }

  ghost predicate OkAt(states: seq<Cluster>, acts: seq<Action>, j: nat)
    requires Run(states, acts) && j < |acts|
  {
    CommitOk(states[j], acts[j])
  }

  lemma RunStepIff(states: seq<Cluster>, acts: seq<Action>, i: nat)
    requires Run(states, acts) && i < |acts|
    ensures Distinct(states[i + 1].log) <==> Distinct(states[i].log) && OkAt(states, acts, i)
  {
    StepIff(states[i], acts[i]);
  }

  lemma RunStart(states: seq<Cluster>, acts: seq<Action>)
    requires Run(states, acts)
    ensures Distinct(states[0].log)
  {}

  /** Of all runs, for xids and rowids alike, exactly those whose every commit is of unused ids keep
      the committed ids distinct. */
  lemma {:induction false} RunIff(states: seq<Cluster>, acts: seq<Action>, i: nat)
    requires Run(states, acts) && i <= |acts|
    ensures Distinct(states[i].log) <==> AllOk(states, acts, i)
  {
    if i == 0 {
      RunStart(states, acts);
    } else {
      RunIff(states, acts, i - 1);
      RunStepIff(states, acts, i - 1);
    }
  }

  /** A commit of ids from before the leader's rise. */
  predicate CommitsEarlier(c: Cluster, act: Action) {
    act.n in c.nodes && act.Commit? && act.s !in c.nodes[act.n].own
  }

  /** Every commit of ids from before the leader's rise was of unused ones. */
  ghost predicate EarlierOk(states: seq<Cluster>, acts: seq<Action>, i: nat)
    requires Run(states, acts) && i <= |acts|
  {
    forall j | 0 <= j < i && CommitsEarlier(states[j], acts[j]) :: OkAt(states, acts, j)
  }

  /** Under a counter above every committed id, only ids from before the rise can have been used. */
  lemma OwnIsUnused(states: seq<Cluster>, acts: seq<Action>, i: nat)
    requires Run(states, acts) && i <= |acts| && forall j | 0 <= j <= i :: Above(states[j])
    ensures AllOk(states, acts, i) <==> EarlierOk(states, acts, i)
  {
    forall j | 0 <= j < i && !CommitsEarlier(states[j], acts[j]) ensures OkAt(states, acts, j) {
      assert Enabled(states[j], acts[j]) && Above(states[j]);
    }
  }

  /** NO XID REUSE, replicated, over every run of allocations, commits in any order, leader changes
      and crashes, with sessions that outlive them and records that do not carry the counter: the
      leader's counter stays above every committed xid exactly when every rise finds it there, and then
      the committed xids are distinct exactly when every xid from before the leader's rise had no
      record when it committed. */
  lemma NoXidReuse(states: seq<Cluster>, acts: seq<Action>, i: nat)
    requires Run(states, acts) && i <= |acts| && states[0].lift
    ensures (forall j | 0 <= j <= i :: Above(states[j])) <==> AllRiseOk(states, acts, i)
    ensures AllRiseOk(states, acts, i) ==> (Distinct(states[i].log) <==> EarlierOk(states, acts, i))
  {
    forall j | 0 <= j < i ensures Steady(states[j], acts[j]) { RunKeepsInv(states, acts, j); }
    RunAbove(states, acts, i);
    RunIff(states, acts, i);
    if AllRiseOk(states, acts, i) { OwnIsUnused(states, acts, i); }
  }

  // ---- Records with and without the counter -------------------------------------------------

  /** Every batch carries the counter, or comes after one that carried it past its ids. */
  ghost predicate Covered(log: seq<Batch>) {
    forall i | 0 <= i < |log| :: log[i].counter.Some? || Carries(log[..i], log[i].span)
  }

  /** On a covered log every rise meets its condition. */
  lemma CoveredRises(c: Cluster, n: nat)
    requires Inv(c) && n in c.nodes && Covered(c.log)
    ensures RiseOk(c, Rise(n))
  {
    forall i | 0 <= i < |c.log| ensures c.log[i].span.End() <= Applied(c.log, c.key) {
      if c.log[i].counter.Some? {
        AppliedAbove(c.log, c.key, i);
      } else {
        var j :| 0 <= j < i && c.log[..i][j].counter.Some? && c.log[i].span.End() <= c.log[..i][j].counter.value;
        assert c.log[j] == c.log[..i][j];
        AppliedAbove(c.log, c.key, j);
      }
    }
  }

  /** A node with nothing in memory rises safely exactly when every committed id has a carried counter
      past it. */
  lemma EmptyRiseIff(c: Cluster, n: nat)
    requires Inv(c) && n in c.nodes && c.nodes[n] == Memory(1, {}, {})
    ensures RiseOk(c, Rise(n)) <==> forall i | 0 <= i < |c.log| :: Carries(c.log, c.log[i].span)
  {
    forall i | 0 <= i < |c.log|
      ensures c.log[i].span.End() <= Applied(c.log, c.key) <==> Carries(c.log, c.log[i].span)
    {
      AppliedPastIff(c.log, c.key, c.log[i].span);
    }
  }

  ghost predicate AllCounted(log: seq<Batch>) { forall i | 0 <= i < |log| :: log[i].counter.Some? }

  lemma {:induction false} LogGrows(states: seq<Cluster>, acts: seq<Action>, i: nat, j: nat)
    requires Run(states, acts) && j <= i <= |acts|
    ensures states[j].log <= states[i].log
    decreases i - j
  {
    if j < i {
      LogGrows(states, acts, i, j + 1);
      assert states[j + 1] == Next(states[j], acts[j]);
    }
  }

  /** NO ROWID OVERLAP, replicated, where every batch carries its counter and a reseed drops the one
      in memory: the committed rowids of a table are disjoint exactly when every commit is of unused
      ones, and they are unused whenever a leader commits only what it took since it rose. */
  lemma NoRowidOverlap(states: seq<Cluster>, acts: seq<Action>, i: nat)
    requires Run(states, acts) && i <= |acts|
    ensures Distinct(states[i].log) <==> AllOk(states, acts, i)
    ensures AllCounted(states[i].log) && (forall j | 0 <= j < i :: !CommitsEarlier(states[j], acts[j])) ==>
              AllOk(states, acts, i)
  {
    RunIff(states, acts, i);
    if AllCounted(states[i].log) && forall j | 0 <= j < i :: !CommitsEarlier(states[j], acts[j]) {
      forall j | 0 <= j < i ensures Steady(states[j], acts[j]) && RiseOk(states[j], acts[j]) {
        LogGrows(states, acts, i, j);
        RunKeepsInv(states, acts, j);
        CountedRises(states[j], acts[j]);
      }
      RunAbove(states, acts, i);
      OwnIsUnused(states, acts, i);
    }
  }

  lemma CountedRises(c: Cluster, act: Action)
    requires Inv(c) && Enabled(c, act) && AllCounted(c.log)
    ensures RiseOk(c, act)
  {
    if act.Rise? { CoveredRises(c, act.n); }
  }

  // ---- Reuse --------------------------------------------------------------------------------

  const FLAP := [Rise(0), Take(0, 1), Rise(1), Take(1, 1), Commit(1, Span(1, 1), Some(2)), Rise(0),
                Commit(0, Span(1, 1), Some(2))]

  const M0 := Memory(1, {}, {})
  const TOOK := Memory(2, {Span(1, 1)}, {})

  function Fresh(key: Key, lift: bool): Cluster { Cluster(key, lift, [], map[0 := M0, 1 := M0], None) }

  lemma AppliedOne(key: Key)
    requires IsCounterKey(key)
    ensures Applied([], key) == 1 && Applied([Batch(Span(1, 1), Some(2))], key) == 2
  {
    var log := [Batch(Span(1, 1), Some(2))];
    assert log[..0] == [] && CounterOps(log, key) == [Put(key, Encode(2, 8))];
    assert [Put(key, Encode(2, 8))][..0] == [];
    NumberOfEncode(2);
  }

  /** The states of the run in which node 0 takes an id, node 1 rises, takes the same id and commits
      it, and node 0 rises again and commits what its session still holds. */
  function Flap(key: Key, lift: bool): seq<Cluster> {
    var c := Fresh(key, lift);
    var log := [Batch(Span(1, 1), Some(2))];
    [c, c.(leader := Some(0)),
     Cluster(key, lift, [], map[0 := TOOK, 1 := M0], Some(0)), Cluster(key, lift, [], map[0 := TOOK, 1 := M0], Some(1)),
     Cluster(key, lift, [], map[0 := TOOK, 1 := TOOK], Some(1)),
     Cluster(key, lift, log, map[0 := TOOK, 1 := Memory(2, {}, {})], Some(1)),
     Cluster(key, lift, log, map[0 := Memory(2, {}, {Span(1, 1)}), 1 := Memory(2, {}, {})], Some(0)),
     Cluster(key, lift, log + log, map[0 := Memory(2, {}, {}), 1 := Memory(2, {}, {})], Some(0))]
  }

  lemma SameNodes(c: Cluster, n: nat, m: Memory, a: Memory, b: Memory)
    requires c.nodes.Keys == {0, 1} && n < 2
    requires a == (if n == 0 then m else c.nodes[0]) && b == (if n == 1 then m else c.nodes[1])
    ensures c.nodes[n := m] == map[0 := a, 1 := b]
  {}

  lemma FlapEarly(key: Key, lift: bool, i: nat)
    requires IsCounterKey(key) && i < 4
    ensures var ss := Flap(key, lift); Enabled(ss[i], FLAP[i]) && ss[i + 1] == Next(ss[i], FLAP[i])
  {
    AppliedOne(key);
    var c, c' := Flap(key, lift)[i], Flap(key, lift)[i + 1];
    var none: set<Span> := {};
    assert none + {Span(1, 1)} == {Span(1, 1)} && none + none == none;
    SameNodes(c, FLAP[i].n, Next(c, FLAP[i]).nodes[FLAP[i].n], c'.nodes[0], c'.nodes[1]);
  }

  lemma FlapLate(key: Key, lift: bool, i: nat)
    requires IsCounterKey(key) && 4 <= i < 7
    ensures var ss := Flap(key, lift); Enabled(ss[i], FLAP[i]) && ss[i + 1] == Next(ss[i], FLAP[i])
  {
    AppliedOne(key);
    var c, c' := Flap(key, lift)[i], Flap(key, lift)[i + 1];
    assert {} + {Span(1, 1)} == {Span(1, 1)} && {Span(1, 1)} - {Span(1, 1)} == {} && {} - {Span(1, 1)} == {};
    SameNodes(c, FLAP[i].n, Next(c, FLAP[i]).nodes[FLAP[i].n], c'.nodes[0], c'.nodes[1]);
  }

  /** An id committed twice: the last commit of the run is of an id that has been recorded. */
  lemma IdReused(key: Key, lift: bool)
    requires IsCounterKey(key)
    ensures Run(Flap(key, lift), FLAP) && !CommitOk(Flap(key, lift)[6], FLAP[6]) && !Distinct(Flap(key, lift)[7].log)
  {
    forall i | 0 <= i < |FLAP|
      ensures Enabled(Flap(key, lift)[i], FLAP[i]) && Flap(key, lift)[i + 1] == Next(Flap(key, lift)[i], FLAP[i])
    {
      if i < 4 { FlapEarly(key, lift, i); } else { FlapLate(key, lift, i); }
    }
    var log := Flap(key, lift)[7].log;
    assert log[0].span == Span(1, 1) && log[1].span == Span(1, 1);
  }

  const LONE := [Rise(0), Take(0, 1), Commit(0, Span(1, 1), None), Rise(1), Take(1, 1), Commit(1, Span(1, 1), Some(2))]

  /** The states of the run in which node 0 records an xid without the counter, and node 1 rises, takes
      the same xid and commits it. */
  function Lone(key: Key): seq<Cluster> {
    var log := [Batch(Span(1, 1), None)];
    [Fresh(key, true), Fresh(key, true).(leader := Some(0)),
     Cluster(key, true, [], map[0 := TOOK, 1 := M0], Some(0)),
     Cluster(key, true, log, map[0 := Memory(2, {}, {}), 1 := M0], Some(0)),
     Cluster(key, true, log, map[0 := Memory(2, {}, {}), 1 := M0], Some(1)),
     Cluster(key, true, log, map[0 := Memory(2, {}, {}), 1 := TOOK], Some(1)),
     Cluster(key, true, log + [Batch(Span(1, 1), Some(2))], map[0 := Memory(2, {}, {}), 1 := Memory(2, {}, {})], Some(1))]
  }

  lemma AppliedNone(key: Key)
    ensures Applied([], key) == 1 && Applied([Batch(Span(1, 1), None)], key) == 1
  {
    var log := [Batch(Span(1, 1), None)];
    assert log[..0] == [] && CounterOps(log, key) == [];
  }

  lemma LoneStep(key: Key, i: nat)
    requires IsCounterKey(key) && i < |LONE|
    ensures var ss := Lone(key); Enabled(ss[i], LONE[i]) && ss[i + 1] == Next(ss[i], LONE[i])
  {
    AppliedNone(key);
    var c, c' := Lone(key)[i], Lone(key)[i + 1];
    var none: set<Span> := {};
    assert none + {Span(1, 1)} == {Span(1, 1)} && none + none == none;
    assert {Span(1, 1)} - {Span(1, 1)} == {} && none - {Span(1, 1)} == {};
    SameNodes(c, LONE[i].n, Next(c, LONE[i]).nodes[LONE[i].n], c'.nodes[0], c'.nodes[1]);
  }

  /** An xid recorded without the counter, as an abort or a joining marker is, comes out again: the next
      leader takes it since its rise, and commits it. */
  lemma UncountedReissued(key: Key)
    requires IsCounterKey(key)
    ensures Run(Lone(key), LONE) && !RiseOk(Lone(key)[3], LONE[3]) && Span(1, 1) in Lone(key)[5].nodes[1].own
    ensures !Distinct(Lone(key)[6].log)
  {
    forall i | 0 <= i < |LONE| ensures Enabled(Lone(key)[i], LONE[i]) && Lone(key)[i + 1] == Next(Lone(key)[i], LONE[i]) {
      LoneStep(key, i);
    }
    AppliedNone(key);
    assert Lone(key)[3].log[0].span.End() == 2;
    var log := Lone(key)[6].log;
    assert log[0].span == Span(1, 1) && log[1].span == Span(1, 1);
  }

  // ---- Global ids -------------------------------------------------------------------------------

  /** The global counter's key is not a counter key, so its last write wins. */
  lemma GlobalCounterIsLast(log: seq<Batch>)
    requires log != [] && BuiltOk(log) && AllCounted(log)
    ensures NumberAt(Fold(map[], CounterOps(log, NEXT_GLOBAL_XID)), NEXT_GLOBAL_XID) == log[|log| - 1].counter.value
  {
    var n := |log| - 1;
    var ops := CounterOps(log, NEXT_GLOBAL_XID);
    KeyClasses(NEXT_GLOBAL_XID);
    assert ops[..|ops| - 1] == CounterOps(log[..n], NEXT_GLOBAL_XID);
    NumberOfEncode(log[n].counter.value);
  }

  /** EXACT CONDITION for global ids: a leader that reseeds after any prefix of the log stays
      above every global xid in that prefix exactly when no batch carries a counter at or below
      the xid of an earlier one, that is when counter writes apply in the order they were built. */
  lemma GlobalReseedExact(log: seq<Batch>)
    requires BuiltOk(log) && AllCounted(log)
    ensures (forall k, i | 0 <= i < k <= |log| ::
               log[i].span.first < NumberAt(Fold(map[], CounterOps(log[..k], NEXT_GLOBAL_XID)), NEXT_GLOBAL_XID)) <==>
            (forall i, j | 0 <= i < j < |log| :: log[i].span.first < log[j].counter.value)
  {
    forall k | 0 < k <= |log|
      ensures NumberAt(Fold(map[], CounterOps(log[..k], NEXT_GLOBAL_XID)), NEXT_GLOBAL_XID) == log[k - 1].counter.value
    {
      GlobalCounterIsLast(log[..k]);
    }
    if forall k, i | 0 <= i < k <= |log| ::
         log[i].span.first < NumberAt(Fold(map[], CounterOps(log[..k], NEXT_GLOBAL_XID)), NEXT_GLOBAL_XID)
    {
      forall i, j | 0 <= i < j < |log| ensures log[i].span.first < log[j].counter.value {
        assert log[i].span.first < NumberAt(Fold(map[], CounterOps(log[..j + 1], NEXT_GLOBAL_XID)), NEXT_GLOBAL_XID);
      }
    }
  }

  /** Two allocations whose batches commit in the opposite order: the later id is reissued. */
  lemma GlobalIdReissued(g: Xid)
    requires GLOBAL_XID_BASE <= g && g + 2 < U64
    ensures var log := [Batch(Span(g + 1, 1), Some(g + 2)), Batch(Span(g, 1), Some(g + 1))];
            BuiltOk(log) && NumberAt(Fold(map[], CounterOps(log, NEXT_GLOBAL_XID)), NEXT_GLOBAL_XID) == log[0].span.first
  {
    GlobalCounterIsLast([Batch(Span(g + 1, 1), Some(g + 2)), Batch(Span(g, 1), Some(g + 1))]);
  }
}
