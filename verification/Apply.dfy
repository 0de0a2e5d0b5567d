/** The replicated state machine: op-by-op apply, what it leaves at each key, and replay. */
module Apply {
  import opened Base
  import opened BigEndian

  type Key = Bytes
  type Store = map<Key, Bytes>

  datatype Op = Put(key: Key, value: Bytes) | Delete(key: Key)

  // ---- Keys -----------------------------------------------------------------------------------

  /** The system table's prefix `/0/` followed by a tag and a slash. */
  const META: Key := [0, 0, 0, 0, 109, 101, 116, 97, 47]
  const SEQ: Key := [0, 0, 0, 0, 115, 101, 113, 47]
  const CLOG: Key := [0, 0, 0, 0, 99, 108, 111, 103, 47]
  const NEXT_XID: Key := META + [110, 101, 120, 116, 95, 120, 105, 100]
  const NEXT_GLOBAL_XID: Key := META + [110, 101, 120, 116, 95, 103, 108, 111, 98, 97, 108, 95, 120, 105, 100]

  predicate IsCounterKey(k: Key) { k == NEXT_XID || (|k| == |SEQ| + 4 && SEQ <= k) }

  predicate IsClogKey(k: Key) { CLOG <= k }

  /** The three key classes are disjoint, and the global counter is a plain key. */
  lemma KeyClasses(k: Key)
    ensures !(IsCounterKey(k) && IsClogKey(k))
    ensures !IsCounterKey(NEXT_GLOBAL_XID) && !IsClogKey(NEXT_GLOBAL_XID)
  {
    if SEQ <= k { assert k[4] == 115; }
    if CLOG <= k { assert k[4] == 99; }
    assert NEXT_XID[4] == 109 && NEXT_GLOBAL_XID[4] == 109;
  }

  predicate Terminal(v: Bytes) { |v| > 0 && (v[0] == 1 || v[0] == 2) }

  /** The first eight bytes, big-endian. Counter values always have them (`OpsOk`). */
  function Number(v: Bytes): (n: nat)
    ensures n < U64
  {
    U64IsPow();
    if |v| < 8 then 0 else Value(v[..8])
  }

  lemma NumberOfEncode(n: nat)
    requires n < U64
    ensures Number(Encode(n, 8)) == n
  {
    U64IsPow();
    ValueOfEncode(n, 8);
    assert Encode(n, 8)[..8] == Encode(n, 8);
  }

  // ---- Op-by-op apply ---------------------------------------------------------------------------

  function NumberAt(kv: Store, k: Key): nat { if k in kv then Number(kv[k]) else 0 }

  predicate TerminalAt(kv: Store, k: Key) { k in kv && Terminal(kv[k]) }

  function ApplyOp(kv: Store, op: Op): Store {
    match op
    case Put(k, v) =>
      if IsCounterKey(k) then kv[k := Encode(Max(NumberAt(kv, k), Number(v)), 8)]
      else if IsClogKey(k) && TerminalAt(kv, k) then kv
      else kv[k := v]
    case Delete(k) => kv - {k}
  }

  function Fold(kv: Store, ops: seq<Op>): Store {
    if ops == [] then kv else ApplyOp(Fold(kv, ops[..|ops| - 1]), ops[|ops| - 1])
  }

  lemma {:induction false} FoldConcat(kv: Store, a: seq<Op>, b: seq<Op>)
    ensures Fold(kv, a + b) == Fold(Fold(kv, a), b)
  {
    if b == [] {
      assert a + b == a;
    } else {
      var n := |b| - 1;
      assert (a + b)[..|a + b| - 1] == a + b[..n];
      FoldConcat(kv, a, b[..n]);
    }
  }

  // ---- What a list of ops does to one key ------------------------------------------------------

  predicate Deleted(ops: seq<Op>, k: Key) { Delete(k) in ops }

  /** The values put to `k` after the last delete of `k`. */
  function Tail(ops: seq<Op>, k: Key): seq<Bytes> {
    if ops == [] then []
    else
      var last := ops[|ops| - 1];
      if last.key != k then Tail(ops[..|ops| - 1], k)
      else if last.Delete? then []
      else Tail(ops[..|ops| - 1], k) + [last.value]
  }

  /** The values put to `k` before the last delete of `k`. */
  function Before(ops: seq<Op>, k: Key): seq<Bytes> {
    if ops == [] then []
    else
      var last := ops[|ops| - 1];
      if last.Delete? && last.key == k then Before(ops[..|ops| - 1], k) + Tail(ops[..|ops| - 1], k)
      else Before(ops[..|ops| - 1], k)
  }

  function Highest(start: nat, vs: seq<Bytes>): (m: nat)
    ensures start <= m && forall v | v in vs :: Number(v) <= m
    ensures m == start || exists v :: v in vs && m == Number(v)
    ensures start < U64 ==> m < U64
  {
    if vs == [] then start
    else
      var n := |vs| - 1;
      var m := Highest(start, vs[..n]);
      assert vs[n] in vs;
      assert forall v | v in vs :: v in vs[..n] || v == vs[n];
      assert forall v | v in vs[..n] :: v in vs;
      Max(m, Number(vs[n]))
  }

  /** Write-once: the first terminal value stays, and until then the last value. */
  function WriteOnce(start: Option<Bytes>, vs: seq<Bytes>): Option<Bytes> {
    if vs == [] then start
    else
      var n := |vs| - 1;
      var c := WriteOnce(start, vs[..n]);
      if c.Some? && Terminal(c.value) then c else Some(vs[n])
  }

  function Get(kv: Store, k: Key): Option<Bytes> { if k in kv then Some(kv[k]) else None }

  /** The value of `k` after the puts `vs`, starting from `start`. */
  function Puts(start: Option<Bytes>, k: Key, vs: seq<Bytes>): Option<Bytes> {
    if vs == [] then start
    else if IsCounterKey(k) then Some(Encode(Highest(if start.Some? then Number(start.value) else 0, vs), 8))
    else if IsClogKey(k) then WriteOnce(start, vs)
    else Some(vs[|vs| - 1])
  }

  lemma {:induction false} NoDeleteNoBefore(ops: seq<Op>, k: Key)
    requires !Deleted(ops, k)
    ensures Before(ops, k) == []
  {
    if ops != [] { NoDeleteNoBefore(ops[..|ops| - 1], k); }
  }

  lemma DeletedLast(ops: seq<Op>, k: Key)
    requires ops != []
    ensures Deleted(ops, k) <==> Deleted(ops[..|ops| - 1], k) || ops[|ops| - 1] == Delete(k)
  {
    assert ops == ops[..|ops| - 1] + [ops[|ops| - 1]];
  }

  /** One more put extends `Puts` by one application of `apply_op`. */
  lemma PutsLast(kv: Store, start: Option<Bytes>, k: Key, vs: seq<Bytes>, v: Bytes)
    requires Get(kv, k) == Puts(start, k, vs)
    ensures Get(ApplyOp(kv, Put(k, v)), k) == Puts(start, k, vs + [v])
  {
    var ws := vs + [v];
    assert ws[..|ws| - 1] == vs && ws[|ws| - 1] == v;
    KeyClasses(k);
    if IsCounterKey(k) {
      var s := if start.Some? then Number(start.value) else 0;
      if vs != [] { NumberOfEncode(Highest(s, vs)); }
      assert NumberAt(kv, k) == Highest(s, vs);
      assert Highest(s, ws) == Max(Highest(s, vs), Number(v));
    } else if IsClogKey(k) {
      assert WriteOnce(start, vs) == Get(kv, k);
      assert WriteOnce(start, ws) == if TerminalAt(kv, k) then Get(kv, k) else Some(v);
    }
  }

  /** What the fold leaves at a key depends only on the puts after the key's last delete. */
  lemma {:induction false} FoldAt(kv: Store, ops: seq<Op>, k: Key)
    ensures Get(Fold(kv, ops), k) == Puts(if Deleted(ops, k) then None else Get(kv, k), k, Tail(ops, k))
  {
    if ops != [] {
      var n := |ops| - 1;
      DeletedLast(ops, k);
      FoldAt(kv, ops[..n], k);
      if ops[n].key == k && ops[n].Put? {
        PutsLast(Fold(kv, ops[..n]), if Deleted(ops, k) then None else Get(kv, k), k, Tail(ops[..n], k), ops[n].value);
      }
    }
  }

  /** The key is not deleted from position `d` on, and `d` is the start or follows a delete. */
  ghost predicate Since(ops: seq<Op>, k: Key, d: nat) {
    && d <= |ops| && (d > 0 ==> ops[d - 1] == Delete(k))
    && forall j | d <= j < |ops| :: ops[j] != Delete(k)
  }

  /** Position `i` is at or past `d` and its op is on the key. */
  ghost function Touches(ops: seq<Op>, k: Key, d: nat): nat -> bool { i => d <= i < |ops| && ops[i].key == k }

  /** `vs` is the values put at the positions `at`. */
  ghost predicate PutAt(ops: seq<Op>, at: seq<nat>, vs: seq<Bytes>) {
    |vs| == |at| && forall x | 0 <= x < |at| :: at[x] < |ops| && ops[at[x]].Put? && vs[x] == ops[at[x]].value
  }

  lemma PutAtStep(ops: seq<Op>, at: seq<nat>, vs: seq<Bytes>, n: nat)
    requires PutAt(ops, at, vs) && n < |ops| && ops[n].Put?
    ensures PutAt(ops, at + [n], vs + [ops[n].value])
  {}

  /** The tail of a key is the values its ops put since its last delete, in order. */
  lemma TailPositions(ops: seq<Op>, k: Key, d: nat) returns (at: seq<nat>)
    requires Since(ops, k, d)
    ensures Deleted(ops, k) <==> d > 0
    ensures Listing(at, |ops|, Touches(ops, k, d)) && PutAt(ops, at, Tail(ops, k))
  {
    assert d > 0 ==> ops[d - 1] == Delete(k);
    at := TailTo(ops, k, d, |ops|);
    assert ops[..|ops|] == ops;
  }

  lemma TailStep(ops: seq<Op>, k: Key, n: nat)
    requires 0 < n <= |ops|
    ensures ops[n - 1].key != k ==> Tail(ops[..n], k) == Tail(ops[..n - 1], k)
    ensures ops[n - 1] == Delete(k) ==> Tail(ops[..n], k) == []
    ensures ops[n - 1].key == k && ops[n - 1].Put? ==> Tail(ops[..n], k) == Tail(ops[..n - 1], k) + [ops[n - 1].value]
  {
    assert ops[..n][..n - 1] == ops[..n - 1];
  }

  lemma TailStart(ops: seq<Op>, k: Key, d: nat)
    requires Since(ops, k, d)
    ensures Tail(ops[..d], k) == []
  {
    if d > 0 { TailStep(ops, k, d); }
  }

  lemma {:induction false} TailTo(ops: seq<Op>, k: Key, d: nat, n: nat) returns (at: seq<nat>)
    requires Since(ops, k, d) && d <= n <= |ops|
    ensures Listing(at, n, Touches(ops, k, d)) && PutAt(ops, at, Tail(ops[..n], k))
  {
    if n == d {
      at := [];
      TailStart(ops, k, d);
    } else {
      var before := TailTo(ops, k, d, n - 1);
      at := PositionsMore(ops, k, d, n - 1, before, Tail(ops[..n - 1], k));
      TailStep(ops, k, n);
    }
  }

  lemma PositionsMore(ops: seq<Op>, k: Key, d: nat, n: nat, before: seq<nat>, vs: seq<Bytes>) returns (at: seq<nat>)
    requires d <= n < |ops| && ops[n] != Delete(k)
    requires Listing(before, n, Touches(ops, k, d)) && PutAt(ops, before, vs)
    ensures Listing(at, n + 1, Touches(ops, k, d))
    ensures PutAt(ops, at, if ops[n].key == k then vs + [ops[n].value] else vs)
  {
    ListingStep(before, n, Touches(ops, k, d));
    at := before;
    if ops[n].key == k {
      PutAtStep(ops, before, vs, n);
      at := before + [n];
    }
  }

  /** A plain key keeps the last value put; a counter the greatest of the numbers put and the one it
      started from, in eight bytes; a clog entry the first terminal value, with none the last. */
  lemma PutsMeans(start: Option<Bytes>, k: Key, vs: seq<Bytes>)
    ensures vs == [] ==> Puts(start, k, vs) == start
    ensures vs != [] && !IsCounterKey(k) && !IsClogKey(k) ==> Puts(start, k, vs) == Some(vs[|vs| - 1])
    ensures vs != [] && IsCounterKey(k) ==>
              exists m: nat :: && Puts(start, k, vs) == Some(Encode(m, 8)) && (start.Some? ==> Number(start.value) <= m)
                               && (forall v | v in vs :: Number(v) <= m)
                               && ((start.Some? && m == Number(start.value)) || exists v :: v in vs && m == Number(v))
    ensures IsClogKey(k) && start.Some? && Terminal(start.value) ==> Puts(start, k, vs) == start
    ensures IsClogKey(k) && (start.Some? ==> !Terminal(start.value)) ==>
              forall i | 0 <= i < |vs| && (Terminal(vs[i]) || i == |vs| - 1) && (forall j | 0 <= j < i :: !Terminal(vs[j])) ::
                Puts(start, k, vs) == Some(vs[i])
  {
    KeyClasses(k);
    if vs != [] && IsCounterKey(k) {
      var m := Highest(if start.Some? then Number(start.value) else 0, vs);
      assert Number(vs[0]) <= m && vs[0] in vs;
      assert Puts(start, k, vs) == Some(Encode(m, 8));
      assert m != 0 ==> (start.Some? && m == Number(start.value)) || exists v :: v in vs && m == Number(v);
      assert m == 0 ==> m == Number(vs[0]);
    }
    if IsClogKey(k) {
      WriteOnceResult(start, vs);
      if !Decided(start) { WriteOnceFirst(start, vs); }
    }
  }

  lemma {:induction false} WriteOnceFirst(start: Option<Bytes>, vs: seq<Bytes>)
    requires !Decided(start)
    ensures forall i | 0 <= i < |vs| && (Terminal(vs[i]) || i == |vs| - 1) && (forall j | 0 <= j < i :: !Terminal(vs[j])) ::
              WriteOnce(start, vs) == Some(vs[i])
  {
    if vs != [] {
      var n := |vs| - 1;
      WriteOnceFirst(start, vs[..n]);
      DecidedBy(start, vs[..n]);
      forall i | 0 <= i < |vs| && (Terminal(vs[i]) || i == n) && (forall j | 0 <= j < i :: !Terminal(vs[j]))
        ensures WriteOnce(start, vs) == Some(vs[i])
      {
        if i < n { assert vs[..n][i] == vs[i]; }
      }
    }
  }

  // ---- Replay -----------------------------------------------------------------------------------

  lemma {:induction false} TailConcat(a: seq<Op>, b: seq<Op>, k: Key)
    ensures Tail(a + b, k) == if Deleted(b, k) then Tail(b, k) else Tail(a, k) + Tail(b, k)
    ensures Deleted(a + b, k) <==> Deleted(a, k) || Deleted(b, k)
  {
    if b == [] {
      assert a + b == a;
    } else {
      var n := |b| - 1;
      assert (a + b)[..|a + b| - 1] == a + b[..n];
      DeletedLast(b, k);
      TailConcat(a, b[..n], k);
    }
  }

  lemma HighestTwice(s: nat, vs: seq<Bytes>)
    ensures Highest(s, vs + vs) == Highest(s, vs)
  {
    assert forall v :: v in vs + vs <==> v in vs;
  }

  lemma {:induction false} WriteOnceConcat(start: Option<Bytes>, a: seq<Bytes>, b: seq<Bytes>)
    ensures WriteOnce(start, a + b) == WriteOnce(WriteOnce(start, a), b)
  {
    if b == [] {
      assert a + b == a;
    } else {
      assert (a + b)[..|a + b| - 1] == a + b[..|b| - 1];
      WriteOnceConcat(start, a, b[..|b| - 1]);
    }
  }

  predicate Decided(c: Option<Bytes>) { c.Some? && Terminal(c.value) }

  /** Once terminal, always the same; otherwise the last value put. */
  lemma {:induction false} WriteOnceResult(start: Option<Bytes>, vs: seq<Bytes>)
    ensures Decided(start) ==> WriteOnce(start, vs) == start
    ensures vs != [] ==> WriteOnce(start, vs).Some?
    ensures !Decided(WriteOnce(start, vs)) && vs != [] ==> WriteOnce(start, vs) == Some(vs[|vs| - 1])
  {
    if vs != [] { WriteOnceResult(start, vs[..|vs| - 1]); }
  }

  lemma {:induction false} DecidedBy(start: Option<Bytes>, vs: seq<Bytes>)
    ensures Decided(WriteOnce(start, vs)) <==> Decided(start) || exists v :: v in vs && Terminal(v)
  {
    if vs != [] {
      var n := |vs| - 1;
      DecidedBy(start, vs[..n]);
      assert vs == vs[..n] + [vs[n]];
    }
  }

  /** A clog key replayed: the second pass finds the first terminal value and keeps it, or
      rewrites the same values. */
  lemma WriteOnceTwice(start: Option<Bytes>, vs: seq<Bytes>)
    ensures WriteOnce(start, vs + vs) == WriteOnce(start, vs)
  {
    WriteOnceConcat(start, vs, vs);
    var c := WriteOnce(start, vs);
    WriteOnceResult(start, vs);
    WriteOnceResult(c, vs);
    DecidedBy(start, vs);
    DecidedBy(c, vs);
  }

  /** REPLAY SAFETY: re-applying any suffix of the log that is already applied changes nothing,
      for every list of ops, deletes included. */
  lemma Replay(kv: Store, pre: seq<Op>, suf: seq<Op>)
    ensures Fold(Fold(kv, pre + suf), suf) == Fold(kv, pre + suf)
  {
    var t := Fold(kv, pre);
    FoldConcat(kv, pre, suf);
    FoldConcat(t, suf, suf);
    var twice, once := Fold(t, suf + suf), Fold(t, suf);
    forall k: Key ensures Get(twice, k) == Get(once, k) {
      FoldAt(t, suf, k);
      FoldAt(t, suf + suf, k);
      TailConcat(suf, suf, k);
      PutsTwice(Get(t, k), k, Tail(suf, k));
    }
    SameStore(twice, once);
  }

  lemma PutsTwice(start: Option<Bytes>, k: Key, vs: seq<Bytes>)
    ensures Puts(start, k, vs + vs) == Puts(start, k, vs)
  {
    if IsCounterKey(k) {
      HighestTwice(if start.Some? then Number(start.value) else 0, vs);
    } else if IsClogKey(k) {
      WriteOnceTwice(start, vs);
    } else if vs != [] {
      assert (vs + vs)[|vs + vs| - 1] == vs[|vs| - 1];
    }
  }

  lemma SameStore(a: Store, b: Store)
    requires forall k: Key :: Get(a, k) == Get(b, k)
    ensures a == b
  {
    forall k: Key ensures k in a <==> k in b {
      assert Get(a, k) == Get(b, k);
    }
    forall k: Key | k in a ensures a[k] == b[k] {
      assert Get(a, k) == Get(b, k);
    }
  }

  /** Without a delete of the key, a counter never goes down and a decided clog entry never
      changes, whatever the ops and their order. */
  lemma Monotone(kv: Store, ops: seq<Op>, k: Key)
    requires !Deleted(ops, k)
    ensures IsCounterKey(k) ==> NumberAt(kv, k) <= NumberAt(Fold(kv, ops), k)
    ensures IsCounterKey(k) ==> forall v | Put(k, v) in ops :: Number(v) <= NumberAt(Fold(kv, ops), k)
    ensures IsClogKey(k) && TerminalAt(kv, k) ==> Get(Fold(kv, ops), k) == Get(kv, k)
    ensures IsClogKey(k) && !TerminalAt(kv, k) && TerminalAt(Fold(kv, ops), k) ==> Put(k, Fold(kv, ops)[k]) in ops
  {
    KeyClasses(k);
    FoldAt(kv, ops, k);
    var vs := Tail(ops, k);
    forall v: Bytes ensures Put(k, v) in ops <==> v in vs { TailIsPuts(ops, k, v); }
    if IsCounterKey(k) && vs != [] {
      NumberOfEncode(Highest(NumberAt(kv, k), vs));
    }
    if IsClogKey(k) {
      WriteOnceResult(Get(kv, k), vs);
      WriteOnceIn(Get(kv, k), vs);
    }
  }

  lemma {:induction false} WriteOnceIn(start: Option<Bytes>, vs: seq<Bytes>)
    ensures var c := WriteOnce(start, vs); c == start || (c.Some? && c.value in vs)
  {
    if vs != [] { WriteOnceIn(start, vs[..|vs| - 1]); }
  }

  lemma {:induction false} TailIsPuts(ops: seq<Op>, k: Key, v: Bytes)
    requires !Deleted(ops, k)
    ensures Put(k, v) in ops <==> v in Tail(ops, k)
  {
    if ops != [] {
      var n := |ops| - 1;
      TailIsPuts(ops[..n], k, v);
      assert ops == ops[..n] + [ops[n]];
    }
  }
}
