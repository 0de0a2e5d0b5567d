/** Settle-before-serve over one range: leaders rise and fall, crash, apply the committed log at
    their own pace and sweep inherited markers, while range 0 decides global transactions. */
module Recovery {
  import opened Base
  import opened Visibility
  import opened RecoveryScan

  /** A committed entry of the range's log: a new leader's blank entry, a clog record of local
      transaction `li` (a marker `Prepared(li -> g)` when `mark` is `Some(g)`, otherwise its local
      outcome) with the xid counter if its batch carries it, a batch of rows with the counter only,
      or a move of the scan watermark. */
  datatype Entry =
    | Noop(term: Term)
    | Clog(term: Term, li: Xid, mark: Option<Xid>, counter: Option<Xid>)
    | Count(term: Term, v: Xid)
    | Lo(term: Term, lo: Xid)
  {
    predicate IsMark() { Clog? && mark.Some? }

    function Counter(): Xid { if Count? then v else if Clog? && counter.Some? then counter.value else 0 }
  }

  /** The sweep of one node, begun in term `t`: started; waiting to apply the first `w` entries;
      counters reseeded; re-scan empty, with the new watermark at hand. */
  datatype Sweep =
    | Idle
    | Started(t: Term)
    | Waiting(t: Term, w: nat)
    | Reseeded(t: Term, w: nat)
    | Clean(t: Term, w: nat, k: nat, newLo: Xid)

  /** `next` and `held` live in memory: the xid counter, and the xids that sessions on the node
      hold, each with the term in whose open gate it was taken (0 when the gate was closed). */
  datatype Node = Node(term: Term, leading: bool, applied: nat, served: Term, next: Xid, held: map<Xid, Term>, sweep: Sweep) {
    predicate Serving() { Serves(leading, served, term) }

    /** The xid was taken in this term, through the open gate. */
    predicate Fresh(li: Xid) { li in held && held[li] == term }
  }

  datatype State = State(log: seq<Entry>, decided: set<Xid>, nodes: map<NodeId, Node>, led: map<Term, NodeId>)

  datatype Action =
    | Elect(n: NodeId, t: Term)
    | Depose(n: NodeId, t: Term)
    | Crash(n: NodeId)
    | Take(n: NodeId)
    | AppendNoop(n: NodeId)
    | AppendClog(n: NodeId, li: Xid, mark: Option<Xid>, counter: Option<Xid>)
    | AppendCount(n: NodeId, v: Xid)
    | Decide(g: Xid)
    | ApplyTo(n: NodeId, k: nat)
    | Begin(n: NodeId)
    | Linearize(n: NodeId, i: nat)
    | Reseed(n: NodeId)
    | Rescan(n: NodeId, replica: set<Xid>, lo: Xid)
    | Advance(n: NodeId)
    | MarkServed(n: NodeId)
    | Fail(n: NodeId)

  // ---- The log ------------------------------------------------------------------------------

  /** Raft: terms never go down along the committed log. */
  ghost predicate Sorted(log: seq<Entry>) { forall i, j | 0 <= i < j < |log| :: log[i].term <= log[j].term }

  predicate CanAppend(log: seq<Entry>, term: Term) { forall i | 0 <= i < |log| :: log[i].term <= term }

  /** One past the greatest local xid with a clog record. */
  function Bound(log: seq<Entry>): (b: Xid)
    ensures forall i | 0 <= i < |log| && log[i].Clog? :: log[i].li < b
    ensures b == 0 || exists i :: 0 <= i < |log| && log[i].Clog? && b == log[i].li + 1
  {
    if log == [] then 0
    else
      var n := |log| - 1;
      var b := Bound(log[..n]);
      if log[n].Clog? && log[n].li >= b then log[n].li + 1 else b
  }

  /** The applied xid counter: the greatest one carried. */
  function Carried(log: seq<Entry>): (c: Xid)
    ensures forall i | 0 <= i < |log| :: log[i].Counter() <= c
    ensures c == 0 || exists i :: 0 <= i < |log| && c == log[i].Counter()
  {
    if log == [] then 0 else Max(Carried(log[..|log| - 1]), log[|log| - 1].Counter())
  }

  /** The watermark values a node that applied `log` may read: 0 or any recorded one. */
  ghost predicate ReadsLo(log: seq<Entry>, lo: Xid) {
    lo == 0 || exists i :: 0 <= i < |log| && log[i] == Lo(log[i].term, lo)
  }

  /** The marker `log[i]` is what the clog says of its xid: a later record replaces a marker, and an
      outcome is never replaced. */
  ghost predicate InForce(log: seq<Entry>, i: int) {
    && 0 <= i < |log| && log[i].IsMark()
    && forall j | 0 <= j < |log| && j != i && log[j].Clog? && log[j].li == log[i].li :: j < i && log[j].IsMark()
  }

  /** Every marker of the prefix from `lo` on is decided in the replica: the re-scan is empty. */
  ghost predicate EmptyScan(log: seq<Entry>, replica: set<Xid>, lo: Xid) {
    forall i | InForce(log, i) && log[i].li >= lo :: log[i].mark.value in replica
  }

  function NewLo(log: seq<Entry>, lo: Xid): Xid { Max(lo, Bound(log)) }

  // ---- Steps --------------------------------------------------------------------------------

  ghost predicate Enabled(s: State, act: Action) {
    match act
    case Decide(g) => true
    case Elect(n, t) => n in s.nodes && t !in s.led && s.nodes[n].term < t
    case Depose(n, t) => n in s.nodes && s.nodes[n].term <= t
    case Crash(n) => n in s.nodes
    case AppendNoop(n) => n in s.nodes && s.nodes[n].leading && CanAppend(s.log, s.nodes[n].term)
    case Take(n) => n in s.nodes
    case AppendClog(n, li, mark, counter) =>
      && n in s.nodes && s.nodes[n].leading && CanAppend(s.log, s.nodes[n].term) && li in s.nodes[n].held
      && (counter.Some? ==> li < counter.value <= s.nodes[n].next)
    case AppendCount(n, v) =>
      n in s.nodes && s.nodes[n].leading && CanAppend(s.log, s.nodes[n].term) && v <= s.nodes[n].next
    case ApplyTo(n, k) => n in s.nodes && s.nodes[n].applied <= k <= |s.log|
    case Begin(n) => n in s.nodes && s.nodes[n].leading && !s.nodes[n].Serving() && s.nodes[n].sweep.Idle?
    case Linearize(n, i) =>
      && n in s.nodes && s.nodes[n].leading && s.nodes[n].sweep.Started?
      && i < |s.log| && s.log[i] == Noop(s.nodes[n].term)
    case Reseed(n) =>
      n in s.nodes && s.nodes[n].sweep.Waiting? && s.nodes[n].sweep.w <= s.nodes[n].applied <= |s.log|
    case Rescan(n, replica, lo) =>
      && n in s.nodes && s.nodes[n].sweep.Reseeded? && s.nodes[n].applied <= |s.log|
      && replica <= s.decided && ReadsLo(s.log[..s.nodes[n].applied], lo)
      && EmptyScan(s.log[..s.nodes[n].applied], replica, lo)
    case Advance(n) =>
      n in s.nodes && s.nodes[n].leading && s.nodes[n].sweep.Clean? && CanAppend(s.log, s.nodes[n].term)
    case MarkServed(n) => n in s.nodes && s.nodes[n].sweep.Clean?
    case Fail(n) => n in s.nodes
  }

  function With(s: State, n: NodeId, node: Node): State { s.(nodes := s.nodes[n := node]) }

  ghost function Step(s: State, act: Action): State
    requires Enabled(s, act)
  {
    match act
    case Decide(g) => s.(decided := s.decided + {g})
    case Elect(n, t) => With(s, n, s.nodes[n].(term := t, leading := true)).(led := s.led[t := n])
    case Depose(n, t) => With(s, n, s.nodes[n].(term := t, leading := false))
    case Crash(n) => With(s, n, s.nodes[n].(leading := false, served := 0, next := 1, held := map[], sweep := Idle))
    case Take(n) =>
      var node := s.nodes[n];
      With(s, n, node.(next := node.next + 1, held := node.held[node.next := if node.Serving() then node.term else 0]))
    case AppendNoop(n) => s.(log := s.log + [Noop(s.nodes[n].term)])
    case AppendClog(n, li, mark, counter) => s.(log := s.log + [Clog(s.nodes[n].term, li, mark, counter)])
    case AppendCount(n, v) => s.(log := s.log + [Count(s.nodes[n].term, v)])
    case ApplyTo(n, k) => With(s, n, s.nodes[n].(applied := k))
    case Begin(n) => With(s, n, s.nodes[n].(sweep := Started(s.nodes[n].term)))
    case Linearize(n, i) => With(s, n, s.nodes[n].(sweep := Waiting(s.nodes[n].sweep.t, i + 1)))
    case Reseed(n) =>
      var node := s.nodes[n];
      With(s, n, node.(sweep := Reseeded(node.sweep.t, node.sweep.w),
                       next := Max(node.next, Carried(s.log[..node.applied]))))
    case Rescan(n, replica, lo) =>
      var node := s.nodes[n];
      With(s, n, node.(sweep := Clean(node.sweep.t, node.sweep.w, node.applied, NewLo(s.log[..node.applied], lo))))
    case Advance(n) => s.(log := s.log + [Lo(s.nodes[n].term, s.nodes[n].sweep.newLo)])
    case MarkServed(n) => With(s, n, s.nodes[n].(served := s.nodes[n].sweep.t, sweep := Idle))
    case Fail(n) => With(s, n, s.nodes[n].(sweep := Idle))
  }

  ghost predicate Run(states: seq<State>, acts: seq<Action>) {
    && |states| == |acts| + 1 && Initial(states[0])
    && forall i | 0 <= i < |acts| :: Enabled(states[i], acts[i]) && states[i + 1] == Step(states[i], acts[i])
  }

  /** Any number of nodes, none leading, nothing committed. */
  ghost predicate Initial(s: State) {
    && s.log == [] && s.decided == {} && s.led == map[]
    && forall n | n in s.nodes :: s.nodes[n] == Node(0, false, 0, 0, 1, map[], Idle)
  }

  // ---- The invariant --------------------------------------------------------------------------

  /** Entries past the first `w` belong to terms from `t` on, and so will every later one. */
  ghost predicate Sealed(log: seq<Entry>, t: Term, w: nat) {
    0 < w <= |log| && forall i | w - 1 <= i < |log| :: log[i].term >= t
  }

  /** Every marker of a term before `t` is decided. */
  ghost predicate SettledBefore(log: seq<Entry>, decided: set<Xid>, t: Term) {
    forall i | InForce(log, i) && log[i].term < t :: log[i].mark.value in decided
  }

  /** Every marker below `lo` is decided. */
  ghost predicate SafeLo(log: seq<Entry>, decided: set<Xid>, lo: Xid) {
    forall i | InForce(log, i) && log[i].li < lo :: log[i].mark.value in decided
  }

  /** `lo` passes no more than the clog records of the prefix. */
  ghost predicate ReachedLo(log: seq<Entry>, lo: Xid) {
    lo == 0 || exists i :: 0 <= i < |log| && log[i].Clog? && lo <= log[i].li + 1
  }

  ghost predicate LosReached(log: seq<Entry>) {
    forall i | 0 <= i < |log| && log[i].Lo? :: ReachedLo(log[..i], log[i].lo)
  }

  /** THE WATERMARK: no recorded one lies above a marker in doubt. */
  ghost predicate LosSafe(log: seq<Entry>, decided: set<Xid>) {
    forall i | 0 <= i < |log| && log[i].Lo? :: SafeLo(log, decided, log[i].lo)
  }

  /** `next` lies past every clog record of the terms up to `t`. */
  ghost predicate Past(log: seq<Entry>, t: Term, next: Xid) {
    forall i | 0 <= i < |log| && log[i].Clog? && log[i].term <= t :: log[i].li < next
  }

  ghost predicate SweepOk(log: seq<Entry>, node: Node) {
    match node.sweep
    case Idle => true
    case Started(t) => node.served < t <= node.term
    case Waiting(t, w) => node.served < t <= node.term && Sealed(log, t, w)
    case Reseeded(t, w) => node.served < t <= node.term && Sealed(log, t, w) && w <= node.applied
    case Clean(t, w, k, newLo) =>
      node.served < t <= node.term && Sealed(log, t, w) && w <= k <= |log| && ReachedLo(log[..k], newLo)
  }

  /** The gate is open, or about to be: the counters have been reseeded in the current term. */
  predicate Seeded(node: Node) {
    node.leading && (node.served == node.term || ((node.sweep.Reseeded? || node.sweep.Clean?) && node.sweep.t == node.term))
  }

  /** The watermarks of the terms up to `t` lie at or below `li`. */
  ghost predicate LosUpTo(log: seq<Entry>, t: Term, li: Xid) {
    forall i | 0 <= i < |log| && log[i].Lo? && log[i].term <= t :: log[i].lo <= li
  }

  /** A fresh xid lies past every watermark of the terms so far. */
  ghost predicate FreshOk(log: seq<Entry>, node: Node) {
    node.leading ==> forall li | li in node.held && node.held[li] == node.term :: LosUpTo(log, node.term, li)
  }

  ghost predicate NodeOk(log: seq<Entry>, node: Node) {
    && node.applied <= |log| && node.served <= node.term
    && (node.served > 0 ==> exists w :: Sealed(log, node.served, w))
    && (forall li | li in node.held :: li < node.next && node.held[li] <= node.term)
    && (forall li | li in node.held && node.leading && node.held[li] == node.term :: node.served == node.term)
    && SweepOk(log, node)
  }

  /** One leader per term writes all of the term's entries, from the xids it holds. */
  ghost predicate TermsOk(s: State) {
    && 0 !in s.led && (forall i | 0 <= i < |s.log| :: s.log[i].term in s.led)
    && (forall n | n in s.nodes && s.nodes[n].leading :: s.nodes[n].term in s.led && s.led[s.nodes[n].term] == n)
    && (forall i, n | 0 <= i < |s.log| && s.log[i].Clog? && n in s.nodes && s.nodes[n].leading &&
                      s.nodes[n].term == s.log[i].term :: s.log[i].li < s.nodes[n].next)
  }

  /** What every run keeps. */
  ghost predicate Inv(s: State) {
    && Sorted(s.log) && LosReached(s.log) && TermsOk(s)
    && forall n | n in s.nodes :: NodeOk(s.log, s.nodes[n])
  }

  /** A seeded leader's counter lies past every record so far, and its fresh xids past every watermark. */
  ghost predicate NodeCounted(log: seq<Entry>, node: Node) {
    (Seeded(node) ==> Past(log, node.term, node.next)) && FreshOk(log, node)
  }

  ghost predicate Counted(s: State) { forall n | n in s.nodes :: NodeCounted(s.log, s.nodes[n]) }

  /** Every marker in force among the first `k` entries, below `lo`, is decided. */
  ghost predicate ScanSafe(log: seq<Entry>, decided: set<Xid>, k: nat, lo: Xid) {
    forall i | i < k && InForce(log, i) && log[i].li < lo :: log[i].mark.value in decided
  }

  /** What a node has settled: everything before the term it served last, and for a clean sweep
      everything below its watermark that it scanned and everything before its term. */
  ghost predicate NodeSettled(log: seq<Entry>, decided: set<Xid>, node: Node) {
    && SettledBefore(log, decided, node.served)
    && (node.sweep.Clean? ==>
          SettledBefore(log, decided, node.sweep.t) && ScanSafe(log, decided, node.sweep.k, node.sweep.newLo))
  }

  /** What holds as long as the watermarks do. */
  ghost predicate Sound(s: State) {
    LosSafe(s.log, s.decided) && forall n | n in s.nodes :: NodeSettled(s.log, s.decided, s.nodes[n])
  }

  // ---- The condition of each step -----------------------------------------------------------

  /** The reseed of a sweep in its own term finds the counter, in memory or carried by the applied
      prefix, past every record of that prefix. */
  ghost predicate ReseedOk(s: State, n: NodeId)
    requires n in s.nodes && s.nodes[n].sweep.Waiting? && s.nodes[n].applied <= |s.log|
  {
    var node := s.nodes[n];
    node.leading && node.sweep.t == node.term ==>
      forall i | 0 <= i < node.applied && s.log[i].Clog? && s.log[i].term <= node.term ::
        s.log[i].li < Max(node.next, Carried(s.log[..node.applied]))
  }

  ghost predicate SeedOk(s: State, act: Action)
    requires Enabled(s, act)
  {
    act.Reseed? ==> ReseedOk(s, act.n)
  }

  /** The xid's outcome is on the log, so that a later marker of it is dropped. */
  ghost predicate HasOutcome(log: seq<Entry>, li: Xid) {
    exists i :: 0 <= i < |log| && log[i].Clog? && log[i].li == li && log[i].mark.None?
  }

  ghost predicate BelowNone(log: seq<Entry>, li: Xid) {
    forall i | 0 <= i < |log| && log[i].Lo? :: log[i].lo <= li
  }

  /** A marker below a recorded watermark must come decided, or be dropped. */
  ghost predicate MarkOk(s: State, li: Xid, mark: Option<Xid>) {
    mark.None? || HasOutcome(s.log, li) || mark.value in s.decided || BelowNone(s.log, li)
  }

  /** No marker in force that has been recorded past the scan, below the watermark it computed, is in
      doubt. */
  ghost predicate AdvanceOk(s: State, n: NodeId)
    requires n in s.nodes && s.nodes[n].sweep.Clean?
  {
    forall i | s.nodes[n].sweep.k <= i && InForce(s.log, i) && s.log[i].li < s.nodes[n].sweep.newLo ::
      s.log[i].mark.value in s.decided
  }

  ghost predicate StepOk(s: State, act: Action)
    requires Enabled(s, act)
  {
    match act
    case AppendClog(n, li, mark, counter) => MarkOk(s, li, mark)
    case Advance(n) => AdvanceOk(s, n)
    case _ => true
  }

  // ---- What a session and a sweep can check --------------------------------------------------

  /** Every record carries the counter, or comes after a batch that carried one past its xid. */
  ghost predicate Covered(log: seq<Entry>) { forall i | 0 <= i < |log| :: CoveredAt(log, i) }

  ghost predicate CoveredAt(log: seq<Entry>, i: nat)
    requires i < |log|
  {
    log[i].Clog? ==> log[i].li < Carried(log[..i + 1])
  }

  /** The sweep is still in the term it began in, and its node has recorded no marker since the scan. */
  ghost predicate OwnSweep(s: State, n: NodeId)
    requires n in s.nodes && s.nodes[n].sweep.Clean?
  {
    && s.nodes[n].sweep.t == s.nodes[n].term
    && forall i | s.nodes[n].sweep.k <= i < |s.log| && s.log[i].IsMark() :: s.log[i].term != s.nodes[n].term
  }

  /** A record is covered, and a marker is from an xid taken in this term through the open gate; a
      watermark is recorded by a sweep in its own term. */
  ghost predicate InputOk(s: State, act: Action)
    requires Enabled(s, act)
  {
    match act
    case AppendClog(n, li, mark, counter) =>
      (counter.Some? || li < Carried(s.log)) && (s.nodes[n].Fresh(li) || MarkOk(s, li, mark))
    case Advance(n) => OwnSweep(s, n) || AdvanceOk(s, n)
    case _ => true
  }
}
