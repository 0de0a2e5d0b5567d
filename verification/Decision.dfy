/** Global decisions on range 0: the clog codec, the write-once record, and the races of
    coordinators, sweepers and participants on one global transaction. */
module Decision {
  import opened Base
  import opened BigEndian
  import opened Visibility
  import opened Apply

  // ---- The clog codec -----------------------------------------------------------------------

  datatype DecodeError = BadStatusByte | MissingGlobalXid

  function EncodeStatus(s: Status): Bytes {
    match s
    case InProgress => [0]
    case Committed => [1]
    case Aborted => [2]
    case Prepared(g) => [3] + Encode(g, 8)
  }

  function DecodeStatus(v: Bytes): Result<Status, DecodeError> {
    if v == [] || v[0] == 0 then Ok(InProgress)
    else if v[0] == 1 then Ok(Committed)
    else if v[0] == 2 then Ok(Aborted)
    else if v[0] == 3 then if |v| < 9 then Err(MissingGlobalXid) else Ok(Prepared(Value(v[1..9])))
    else Err(BadStatusByte)
  }

  lemma StatusRoundTrip(s: Status)
    requires s.Prepared? ==> s.g < U64
    ensures DecodeStatus(EncodeStatus(s)) == Ok(s)
    ensures Terminal(EncodeStatus(s)) <==> s == Committed || s == Aborted
    ensures EncodeStatus(s)[0] == match s case InProgress => 0 case Committed => 1 case Aborted => 2 case Prepared(_) => 3
    ensures |EncodeStatus(s)| == if s.Prepared? then 9 else 1
  {
    if s.Prepared? {
      U64IsPow();
      ValueOfEncode(s.g, 8);
      assert EncodeStatus(s)[1..9] == Encode(s.g, 8);
    }
  }

  /** A value is terminal exactly when it decodes to Committed or Aborted. */
  lemma TerminalDecodes(v: Bytes)
    ensures Terminal(v) <==> DecodeStatus(v) == Ok(Committed) || DecodeStatus(v) == Ok(Aborted)
  {}

  // ---- Deciding -------------------------------------------------------------------------------

  function ClogKey(g: Xid): (k: Key)
    ensures IsClogKey(k)
  {
    CLOG + Encode(g, 8)
  }

  lemma ClogKeyUnique(a: Xid, b: Xid)
    requires a < U64 && b < U64 && ClogKey(a) == ClogKey(b)
    ensures a == b
  {
    U64IsPow();
    ValueOfEncode(a, 8);
    ValueOfEncode(b, 8);
    assert ClogKey(a)[|CLOG|..] == Encode(a, 8) && ClogKey(b)[|CLOG|..] == Encode(b, 8);
  }

  /** The status range 0 reports for `g` after applying `log`. */
  function StatusAfter(log: seq<Op>, g: Xid): Result<Status, DecodeError> {
    var c := Get(Fold(map[], log), ClogKey(g));
    DecodeStatus(if c.Some? then c.value else [])
  }

  /** `commit_global_decision`: propose a status together with the counter, then read back what is
      recorded. An earlier decision stands; otherwise the proposal becomes the decision. */
  method CommitGlobalDecision(kv: Store, g: Xid, status: Status, next: Xid)
    returns (kv': Store, effective: Result<Status, DecodeError>)
    requires status == Committed || status == Aborted
    ensures kv' == Fold(kv, [Put(ClogKey(g), EncodeStatus(status)), Put(NEXT_GLOBAL_XID, Encode(next, 8))])
    ensures TerminalAt(kv, ClogKey(g)) ==> effective == DecodeStatus(kv[ClogKey(g)])
    ensures !TerminalAt(kv, ClogKey(g)) ==> effective == Ok(status)
    ensures forall k | k != ClogKey(g) && k != NEXT_GLOBAL_XID :: Get(kv', k) == Get(kv, k)
    ensures g < U64 ==> forall h: Xid | h < U64 && h != g :: Get(kv', ClogKey(h)) == Get(kv, ClogKey(h))
  {
    var ops := [Put(ClogKey(g), EncodeStatus(status)), Put(NEXT_GLOBAL_XID, Encode(next, 8))];
    assert ops[..1] == [ops[0]] && ops[..1][..0] == [];
    assert Fold(kv, ops[..1]) == ApplyOp(Fold(kv, ops[..1][..0]), ops[0]) == ApplyOp(kv, ops[0]);
    assert Fold(kv, ops) == ApplyOp(Fold(kv, ops[..1]), ops[1]);
    KeyClasses(ClogKey(g));
    StatusRoundTrip(status);
    kv' := ApplyOp(ApplyOp(kv, ops[0]), ops[1]);
    effective := DecodeStatus(if ClogKey(g) in kv' then kv'[ClogKey(g)] else []);
    forall h: Xid | h < U64 && g < U64 && h != g ensures ClogKey(h) != ClogKey(g) && ClogKey(h) != NEXT_GLOBAL_XID {
      if ClogKey(h) == ClogKey(g) { ClogKeyUnique(h, g); }
    }
  }

  /** `log[i]` is the first terminal put for `g`. */
  ghost predicate FirstTerminal(log: seq<Op>, g: Xid, i: nat) {
    && i < |log| && log[i].Put? && log[i].key == ClogKey(g) && Terminal(log[i].value)
    && forall j | 0 <= j < i && log[j].Put? && log[j].key == ClogKey(g) :: !Terminal(log[j].value)
  }

  /** Clog records are never deleted. */
  ghost predicate Permanent(log: seq<Op>, g: Xid) { Delete(ClogKey(g)) !in log }

  lemma {:induction false} Undecided(log: seq<Op>, g: Xid)
    requires Permanent(log, g)
    requires forall j | 0 <= j < |log| && log[j].Put? && log[j].key == ClogKey(g) :: !Terminal(log[j].value)
    ensures !TerminalAt(Fold(map[], log), ClogKey(g))
  {
    if log != [] {
      var n := |log| - 1;
      Undecided(log[..n], g);
      KeyClasses(ClogKey(g));
    }
  }

  /** The recorded decision is the value of the first terminal put, and stays it. */
  lemma DecidedByFirst(log: seq<Op>, g: Xid, i: nat)
    requires Permanent(log, g) && FirstTerminal(log, g, i)
    ensures Get(Fold(map[], log), ClogKey(g)) == Some(log[i].value)
  {
    var k := ClogKey(g);
    var pre, post := log[..i], log[i + 1..];
    assert log == pre + [log[i]] + post;
    Undecided(pre, g);
    KeyClasses(k);
    assert (pre + [log[i]])[..i] == pre;
    FoldConcat(map[], pre + [log[i]], post);
    assert !Deleted(post, k);
    Monotone(Fold(map[], pre + [log[i]]), post, k);
  }

  lemma HasFirst(log: seq<Op>, g: Xid, p: nat) returns (i: nat)
    requires p < |log| && log[p].Put? && log[p].key == ClogKey(g) && Terminal(log[p].value)
    ensures FirstTerminal(log, g, i) && i <= p
  {
    i := 0;
    while !(log[i].Put? && log[i].key == ClogKey(g) && Terminal(log[i].value))
      invariant i <= p
      invariant forall j | 0 <= j < i && log[j].Put? && log[j].key == ClogKey(g) :: !Terminal(log[j].value)
      decreases p - i
    {
      i := i + 1;
    }
  }

  /** One `commit_global_decision`: it proposed `status` at position `p` of range 0's log and read
      its answer from a store that had applied the first `k` entries, its own among them. */
  datatype Race = Race(status: Status, p: nat, k: nat)

  ghost predicate Valid(log: seq<Op>, g: Xid, r: Race) {
    && (r.status == Committed || r.status == Aborted)
    && r.p < r.k <= |log| && log[r.p] == Put(ClogKey(g), EncodeStatus(r.status))
  }

  /** The decision a race returns. */
  function Returned(log: seq<Op>, g: Xid, r: Race): Result<Status, DecodeError>
    requires r.k <= |log|
  {
    StatusAfter(log[..r.k], g)
  }

  lemma PrefixDecision(log: seq<Op>, g: Xid, k: nat, i: nat)
    requires Permanent(log, g) && k <= |log| && FirstTerminal(log, g, i) && i < k
    ensures StatusAfter(log[..k], g) == DecodeStatus(log[i].value)
  {
    assert forall op | op in log[..k] :: op in log;
    assert FirstTerminal(log[..k], g, i);
    DecidedByFirst(log[..k], g, i);
  }

  /** DECISION AGREEMENT: however many callers race to commit or abort `g`, each is told the same
      terminal status, that of the first proposal applied; so whoever proposed the opposite
      learns it lost. */
  lemma Agreement(log: seq<Op>, g: Xid, a: Race, b: Race)
    requires Permanent(log, g) && Valid(log, g, a) && Valid(log, g, b)
    ensures Returned(log, g, a) == Returned(log, g, b)
    ensures Returned(log, g, a) == Ok(Committed) || Returned(log, g, a) == Ok(Aborted)
    ensures FirstTerminal(log, g, a.p) ==> Returned(log, g, b) == Ok(a.status)
  {
    StatusRoundTrip(a.status);
    StatusRoundTrip(b.status);
    var i := HasFirst(log, g, a.p);
    var j := HasFirst(log, g, b.p);
    assert i == j;
    PrefixDecision(log, g, a.k, i);
    PrefixDecision(log, g, b.k, i);
    TerminalDecodes(log[i].value);
  }

  /** A terminal status in any prefix is the status in every longer one. */
  lemma Stable(log: seq<Op>, g: Xid, k: nat, k': nat)
    requires Permanent(log, g) && k <= k' <= |log|
    requires StatusAfter(log[..k], g) == Ok(Committed) || StatusAfter(log[..k], g) == Ok(Aborted)
    ensures StatusAfter(log[..k'], g) == StatusAfter(log[..k], g)
  {
    var key := ClogKey(g);
    var more := log[k..k'];
    assert log[..k'] == log[..k] + more;
    FoldConcat(map[], log[..k], more);
    assert forall op | op in more :: op in log;
    var c := Get(Fold(map[], log[..k]), key);
    TerminalDecodes(if c.Some? then c.value else []);
    Monotone(Fold(map[], log[..k]), more, key);
  }

  // ---- Markers on several ranges ------------------------------------------------------------

  /** The decisions a replica has after applying the first `k` entries of range 0's log. */
  ghost predicate ReplicaOf(decided: map<Xid, bool>, log: seq<Op>, k: nat) {
    && k <= |log|
    && (forall g: Xid :: DecisionOf(decided, g) == Committed <==> StatusAfter(log[..k], g) == Ok(Committed))
    && (forall g: Xid :: DecisionOf(decided, g) == Aborted <==> StatusAfter(log[..k], g) == Ok(Aborted))
  }

  /** ATOMIC VISIBILITY: two ranges that hold markers of `g` and read under one global snapshot,
      each through its own replica, see the transaction differently exactly when the snapshot
      covers `g` and the commit lies between what the two replicas have applied. */
  lemma MarkersAgree(log: seq<Op>, g: Xid, gsnap: Snapshot, v: View, v': View, k: nat, k': nat, x: Xid, x': Xid)
    requires Permanent(log, g) && k <= k' && ReplicaOf(v.decided, log, k) && ReplicaOf(v'.decided, log, k')
    requires v.gsnap == gsnap && v'.gsnap == gsnap
    requires ClogGet(v.clog, x) == Prepared(g) && ClogGet(v'.clog, x') == Prepared(g)
    ensures (GlobalStatus(v, x) == Committed) != (GlobalStatus(v', x') == Committed) <==>
            (!gsnap.IsRunning(g) && StatusAfter(log[..k'], g) == Ok(Committed) && StatusAfter(log[..k], g) != Ok(Committed))
    ensures k == k' ==> GlobalStatus(v, x) == GlobalStatus(v', x')
    ensures GlobalStatus(v, x) == Committed ==> GlobalStatus(v', x') == Committed
    ensures GlobalStatus(v, x) == Aborted ==> GlobalStatus(v', x') == Aborted
  {
    if StatusAfter(log[..k], g) == Ok(Committed) || StatusAfter(log[..k], g) == Ok(Aborted) {
      Stable(log, g, k, k');
    }
  }
}
