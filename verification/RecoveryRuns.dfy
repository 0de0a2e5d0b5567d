/** Exactly which steps, and which runs, keep the watermark sound; those that do settle every
    inherited marker before a gate opens. */
module RecoveryRuns {
  import opened Base
  import opened Visibility
  import opened RecoveryScan
  import opened Recovery

  // ---- Appending to the log -------------------------------------------------------------------

  lemma SealedStays(log: seq<Entry>, e: Entry, t: Term, w: nat)
    requires Sealed(log, t, w) && CanAppend(log, e.term)
    ensures Sealed(log + [e], t, w) && e.term >= t
  {
    assert log[w - 1].term >= t;
  }

  /** What a node knows survives an entry of the terms no sweep has sealed off. */
  lemma NodeStays(log: seq<Entry>, e: Entry, node: Node)
    requires NodeOk(log, node) && CanAppend(log, e.term)
    ensures NodeOk(log + [e], node)
  {
    var log' := log + [e];
    if node.served > 0 {
      var w :| Sealed(log, node.served, w);
      SealedStays(log, e, node.served, w);
    }
    if !node.sweep.Idle? && !node.sweep.Started? {
      SealedStays(log, e, node.sweep.t, node.sweep.w);
    }
    if node.sweep.Clean? { assert log'[..node.sweep.k] == log[..node.sweep.k]; }
  }

  lemma LosReachedStay(log: seq<Entry>, e: Entry)
    requires LosReached(log) && (e.Lo? ==> ReachedLo(log, e.lo))
    ensures LosReached(log + [e])
  {
    forall i | 0 <= i < |log + [e]| && (log + [e])[i].Lo? ensures ReachedLo((log + [e])[..i], (log + [e])[i].lo) {
      assert (log + [e])[..i] == log[..i];
      assert log[..|log|] == log;
    }
  }

  lemma StepAppend(s: State, n: NodeId, e: Entry)
    requires Inv(s) && n in s.nodes && s.nodes[n].leading && e.term == s.nodes[n].term && CanAppend(s.log, e.term)
    requires e.Clog? ==> e.li < s.nodes[n].next
    requires e.Lo? ==> ReachedLo(s.log, e.lo)
    ensures Inv(s.(log := s.log + [e]))
  {
    var s' := s.(log := s.log + [e]);
    LosReachedStay(s.log, e);
    forall m | m in s'.nodes ensures NodeOk(s'.log, s'.nodes[m]) {
      NodeStays(s.log, e, s.nodes[m]);
    }
    assert TermsOk(s');
  }

  lemma PrefixReached(log: seq<Entry>, k: nat, lo: Xid)
    requires k <= |log| && ReachedLo(log[..k], lo)
    ensures ReachedLo(log, lo)
  {
    if lo != 0 {
      var i :| 0 <= i < k && log[..k][i].Clog? && lo <= log[..k][i].li + 1;
      assert log[i] == log[..k][i];
    }
  }

  lemma StepAdvance(s: State, n: NodeId)
    requires Inv(s) && Enabled(s, Advance(n))
    ensures Inv(Step(s, Advance(n)))
  {
    var node := s.nodes[n];
    assert NodeOk(s.log, node);
    PrefixReached(s.log, node.sweep.k, node.sweep.newLo);
    StepAppend(s, n, Lo(node.term, node.sweep.newLo));
  }

  // ---- A node on its own --------------------------------------------------------------------

  lemma StepNode(s: State, n: NodeId, node: Node)
    requires Inv(s) && n in s.nodes && NodeOk(s.log, node)
    requires node.leading ==> s.nodes[n].leading && node.term == s.nodes[n].term && s.nodes[n].next <= node.next
    ensures Inv(With(s, n, node))
  {}

  lemma StepTake(s: State, n: NodeId)
    requires Inv(s) && Enabled(s, Take(n))
    ensures Inv(Step(s, Take(n)))
  {
    assert NodeOk(s.log, s.nodes[n]);
    assert s.nodes[n].leading ==> s.nodes[n].term > 0;
    StepNode(s, n, Step(s, Take(n)).nodes[n]);
  }

  lemma RescanReaches(log: seq<Entry>, k: nat, lo: Xid)
    requires LosReached(log) && k <= |log| && ReadsLo(log[..k], lo)
    ensures ReachedLo(log[..k], NewLo(log[..k], lo))
  {
    var pre := log[..k];
    if lo != 0 && lo >= Bound(pre) {
      var j :| 0 <= j < k && pre[j] == Lo(pre[j].term, lo);
      assert log[j] == pre[j] && pre[..j] == log[..j];
      PrefixReached(pre, j, lo);
    }
  }

  lemma StepRescan(s: State, n: NodeId, replica: set<Xid>, lo: Xid)
    requires Inv(s) && Enabled(s, Rescan(n, replica, lo))
    ensures Inv(Step(s, Rescan(n, replica, lo)))
  {
    assert NodeOk(s.log, s.nodes[n]);
    RescanReaches(s.log, s.nodes[n].applied, lo);
    StepNode(s, n, Step(s, Rescan(n, replica, lo)).nodes[n]);
  }

  lemma StepReseed(s: State, n: NodeId)
    requires Inv(s) && Enabled(s, Reseed(n))
    ensures Inv(Step(s, Reseed(n)))
  {
    assert NodeOk(s.log, s.nodes[n]);
    StepNode(s, n, Step(s, Reseed(n)).nodes[n]);
  }

  lemma StepLinearize(s: State, n: NodeId, i: nat)
    requires Inv(s) && Enabled(s, Linearize(n, i))
    ensures Inv(Step(s, Linearize(n, i)))
  {
    assert NodeOk(s.log, s.nodes[n]);
    assert Sealed(s.log, s.nodes[n].sweep.t, i + 1);
    StepNode(s, n, Step(s, Linearize(n, i)).nodes[n]);
  }

  lemma StepServe(s: State, n: NodeId)
    requires Inv(s) && Enabled(s, MarkServed(n))
    ensures Inv(Step(s, MarkServed(n)))
  {
    assert NodeOk(s.log, s.nodes[n]);
    assert Sealed(s.log, s.nodes[n].sweep.t, s.nodes[n].sweep.w);
    StepNode(s, n, Step(s, MarkServed(n)).nodes[n]);
  }

  lemma StepElect(s: State, n: NodeId, t: Term)
    requires Inv(s) && Enabled(s, Elect(n, t))
    ensures Inv(Step(s, Elect(n, t)))
  {
    var s' := Step(s, Elect(n, t));
    assert NodeOk(s.log, s.nodes[n]);
    assert NodeOk(s.log, s'.nodes[n]);
    assert TermsOk(s');
  }

  /** A node steps down, crashes, applies more of the log, begins a sweep or gives it up. */
  lemma StepSmall(s: State, act: Action)
    requires Inv(s) && Enabled(s, act) && (act.Depose? || act.Crash? || act.ApplyTo? || act.Begin? || act.Fail?)
    ensures Inv(Step(s, act))
  {
    assert NodeOk(s.log, s.nodes[act.n]);
    StepNode(s, act.n, Step(s, act).nodes[act.n]);
  }

  /** Every step of every run keeps the invariant. */
  lemma StepKeepsInv(s: State, act: Action)
    requires Inv(s) && Enabled(s, act)
    ensures Inv(Step(s, act))
  {
    match act
    case Decide(g) =>
    case Elect(n, t) => StepElect(s, n, t);
    case AppendNoop(n) => StepAppend(s, n, Noop(s.nodes[n].term));
    case Take(n) => StepTake(s, n);
    case AppendClog(n, li, mark, counter) =>
      assert NodeOk(s.log, s.nodes[n]);
      StepAppend(s, n, Clog(s.nodes[n].term, li, mark, counter));
    case AppendCount(n, v) => StepAppend(s, n, Count(s.nodes[n].term, v));
    case Linearize(n, i) => StepLinearize(s, n, i);
    case Reseed(n) => StepReseed(s, n);
    case Rescan(n, replica, lo) => StepRescan(s, n, replica, lo);
    case Advance(n) => StepAdvance(s, n);
    case MarkServed(n) => StepServe(s, n);
    case Depose(n, t) => StepSmall(s, act);
    case Crash(n) => StepSmall(s, act);
    case ApplyTo(n, k) => StepSmall(s, act);
    case Begin(n) => StepSmall(s, act);
    case Fail(n) => StepSmall(s, act);
  }

  lemma {:induction false} RunKeepsInv(states: seq<State>, acts: seq<Action>, i: nat)
    requires Run(states, acts) && i < |states|
    ensures Inv(states[i])
  {
    if i > 0 {
      RunKeepsInv(states, acts, i - 1);
      StepKeepsInv(states[i - 1], acts[i - 1]);
    }
  }

  // ---- The counter --------------------------------------------------------------------------

  lemma PastStays(log: seq<Entry>, e: Entry, node: Node)
    requires Past(log, node.term, node.next)
    requires e.Clog? && e.term <= node.term ==> e.li < node.next
    ensures Past(log + [e], node.term, node.next)
  {}

  lemma FreshStays(log: seq<Entry>, e: Entry, node: Node)
    requires FreshOk(log, node)
    requires e.Lo? ==> forall li | li in node.held && node.leading && node.held[li] == node.term :: e.term > node.term
    ensures FreshOk(log + [e], node)
  {
    if node.leading {
      forall li | li in node.held && node.held[li] == node.term ensures LosUpTo(log + [e], node.term, li) {
        assert LosUpTo(log, node.term, li);
      }
    }
  }

  /** A seeded leader's counter stays past the records: later ones of its term are from xids it holds,
      and every other leader's are of later terms. */
  lemma CountedStays(log: seq<Entry>, e: Entry, node: Node)
    requires NodeOk(log, node) && NodeCounted(log, node) && CanAppend(log, e.term)
    requires node.leading ==> node.term > 0
    requires node.leading && e.term == node.term ==> (e.Clog? ==> e.li < node.next) && (e.Lo? ==> node.served != node.term)
    ensures NodeCounted(log + [e], node)
  {
    if node.served > 0 {
      var w :| Sealed(log, node.served, w);
      SealedStays(log, e, node.served, w);
    }
    if !node.sweep.Idle? && !node.sweep.Started? {
      SealedStays(log, e, node.sweep.t, node.sweep.w);
    }
    if Seeded(node) { PastStays(log, e, node); }
    FreshStays(log, e, node);
  }

  lemma AppendKeepsCounted(s: State, n: NodeId, e: Entry)
    requires Inv(s) && Counted(s) && n in s.nodes && s.nodes[n].leading && e.term == s.nodes[n].term && CanAppend(s.log, e.term)
    requires (e.Clog? ==> e.li < s.nodes[n].next) && (e.Lo? ==> s.nodes[n].served != e.term)
    ensures Counted(s.(log := s.log + [e]))
  {
    forall m | m in s.nodes ensures NodeCounted(s.log + [e], s.nodes[m]) {
      assert NodeOk(s.log, s.nodes[m]) && NodeCounted(s.log, s.nodes[m]);
      assert s.nodes[m].leading && s.nodes[m].term == e.term ==> m == n;
      CountedStays(s.log, e, s.nodes[m]);
    }
  }

  lemma CountedNode(s: State, n: NodeId, node: Node)
    requires Counted(s) && n in s.nodes && NodeCounted(s.log, node)
    ensures Counted(With(s, n, node))
  {}

  lemma TakenPastLo(log: seq<Entry>, term: Term, next: Xid, i: nat)
    requires Sorted(log) && LosReached(log) && Past(log, term, next)
    requires i < |log| && log[i].Lo? && log[i].term <= term
    ensures log[i].lo <= next
  {
    if log[i].lo != 0 {
      var j :| 0 <= j < i && log[..i][j].Clog? && log[i].lo <= log[..i][j].li + 1;
      assert log[j] == log[..i][j] && log[j].term <= log[i].term;
    }
  }

  /** Taking an xid through an open gate whose reseed was past the records: it lies past every
      watermark so far, because a watermark passes only clog records. */
  lemma TakeCounted(s: State, n: NodeId)
    requires Inv(s) && Counted(s) && Enabled(s, Take(n))
    ensures Counted(Step(s, Take(n)))
  {
    var node := s.nodes[n];
    assert NodeOk(s.log, node) && NodeCounted(s.log, node);
    if node.Serving() {
      forall i | 0 <= i < |s.log| && s.log[i].Lo? && s.log[i].term <= node.term ensures s.log[i].lo <= node.next {
        TakenPastLo(s.log, node.term, node.next, i);
      }
    }
    var node' := Step(s, Take(n)).nodes[n];
    assert node.leading ==> node.term > 0;
    forall li | li in node'.held && node'.leading && node'.held[li] == node'.term ensures LosUpTo(s.log, node'.term, li) {
      assert li != node.next ==> LosUpTo(s.log, node.term, li);
    }
    CountedNode(s, n, node');
  }

  /** EXACT CONDITION for the reseed: in its own term it leaves the counter past every record exactly
      when the counter in memory or one carried by the applied prefix is. */
  lemma ReseedExact(s: State, n: NodeId)
    requires Inv(s) && Counted(s) && Enabled(s, Reseed(n))
    ensures Counted(Step(s, Reseed(n))) <==> ReseedOk(s, n)
  {
    var node, node' := s.nodes[n], Step(s, Reseed(n)).nodes[n];
    assert NodeOk(s.log, node) && NodeCounted(s.log, node);
    if ReseedOk(s, n) {
      if node.leading && node.sweep.t == node.term { ReseededPast(s, n); }
      CountedNode(s, n, node');
    } else {
      assert Seeded(node') && !Past(s.log, node'.term, node'.next);
      assert !NodeCounted(s.log, Step(s, Reseed(n)).nodes[n]);
    }
  }

  lemma ReseededPast(s: State, n: NodeId)
    requires Inv(s) && Enabled(s, Reseed(n)) && ReseedOk(s, n)
    requires s.nodes[n].leading && s.nodes[n].sweep.t == s.nodes[n].term
    ensures Past(s.log, s.nodes[n].term, Max(s.nodes[n].next, Carried(s.log[..s.nodes[n].applied])))
  {
    assert NodeOk(s.log, s.nodes[n]);
  }

  lemma SmallCounted(s: State, act: Action)
    requires Inv(s) && Counted(s) && Enabled(s, act)
    requires act.Elect? || act.Depose? || act.Crash? || act.ApplyTo? || act.Begin? || act.Fail? || act.Linearize? ||
             act.Rescan? || act.MarkServed?
    ensures Counted(Step(s, act))
  {
    assert NodeOk(s.log, s.nodes[act.n]) && NodeCounted(s.log, s.nodes[act.n]);
    CountedNode(s, act.n, Step(s, act).nodes[act.n]);
  }

  /** Every step keeps the counters past the records exactly when, if it is a reseed, its condition is
      met. */
  lemma SeedIff(s: State, act: Action)
    requires Inv(s) && Counted(s) && Enabled(s, act)
    ensures Counted(Step(s, act)) <==> SeedOk(s, act)
  {
    match act
    case Decide(g) =>
    case AppendNoop(n) => AppendKeepsCounted(s, n, Noop(s.nodes[n].term));
    case AppendClog(n, li, mark, counter) =>
      assert NodeOk(s.log, s.nodes[n]);
      AppendKeepsCounted(s, n, Clog(s.nodes[n].term, li, mark, counter));
    case AppendCount(n, v) => AppendKeepsCounted(s, n, Count(s.nodes[n].term, v));
    case Advance(n) =>
      assert NodeOk(s.log, s.nodes[n]);
      AppendKeepsCounted(s, n, Lo(s.nodes[n].term, s.nodes[n].sweep.newLo));
    case Take(n) => TakeCounted(s, n);
    case Reseed(n) => ReseedExact(s, n);
    case _ => SmallCounted(s, act);
  }

  ghost predicate AllSeedOk(states: seq<State>, acts: seq<Action>, i: nat)
    requires Run(states, acts) && i <= |acts|
  {
    forall j | 0 <= j < i :: SeedOk(states[j], acts[j])
  }

  /** Of all runs, exactly those whose every reseed meets its condition keep every seeded leader's
      counter past the records, and its fresh xids past the watermarks, in every state. */
  lemma {:induction false} RunCounted(states: seq<State>, acts: seq<Action>, i: nat)
    requires Run(states, acts) && i <= |acts|
    ensures (forall j | 0 <= j <= i :: Counted(states[j])) <==> AllSeedOk(states, acts, i)
  {
    if i > 0 {
      RunCounted(states, acts, i - 1);
      if AllSeedOk(states, acts, i - 1) {
        RunKeepsInv(states, acts, i - 1);
        SeedIff(states[i - 1], acts[i - 1]);
        assert states[i] == Step(states[i - 1], acts[i - 1]);
      }
    }
  }

  // ---- Records without the counter ------------------------------------------------------------

  lemma {:induction false} CarriedGrows(log: seq<Entry>, i: nat)
    requires i <= |log|
    ensures Carried(log[..i]) <= Carried(log)
    decreases |log| - i
  {
    if i == |log| {
      assert log[..i] == log;
    } else {
      CarriedGrows(log, i + 1);
      assert log[..i + 1][..i] == log[..i];
    }
  }

  /** EXACT CONDITION for a record: the counter stays past every record in every prefix exactly when
      the record carries it, or one past its xid has been carried before. */
  lemma CoveredIff(log: seq<Entry>, e: Entry)
    requires e.Clog? && e.counter.Some? ==> e.li < e.counter.value
    ensures Covered(log + [e]) <==> Covered(log) && (e.Clog? ==> e.counter.Some? || e.li < Carried(log))
  {
    NewCover(log, e);
    if Covered(log + [e]) { FrontCovered(log, e); }
    if Covered(log) && CoveredAt(log + [e], |log|) { LongerCovered(log, e); }
  }

  lemma FrontCovered(log: seq<Entry>, e: Entry)
    requires Covered(log + [e])
    ensures Covered(log) && CoveredAt(log + [e], |log|)
  {
    forall i | 0 <= i < |log| ensures CoveredAt(log, i) { SameCover(log, e, i); }
  }

  lemma LongerCovered(log: seq<Entry>, e: Entry)
    requires Covered(log) && CoveredAt(log + [e], |log|)
    ensures Covered(log + [e])
  {
    forall i | 0 <= i < |log + [e]| ensures CoveredAt(log + [e], i) {
      if i < |log| { SameCover(log, e, i); }
    }
  }

  lemma SameCover(log: seq<Entry>, e: Entry, i: nat)
    requires i < |log|
    ensures CoveredAt(log + [e], i) <==> CoveredAt(log, i)
  {
    assert (log + [e])[i] == log[i] && (log + [e])[..i + 1] == log[..i + 1];
  }

  lemma NewCover(log: seq<Entry>, e: Entry)
    requires e.Clog? && e.counter.Some? ==> e.li < e.counter.value
    ensures CoveredAt(log + [e], |log|) <==> (e.Clog? ==> e.counter.Some? || e.li < Carried(log))
  {
    var log' := log + [e];
    assert log'[..|log|] == log && log'[..|log| + 1] == log' && log'[|log|] == e;
    assert Carried(log') == Max(Carried(log), e.Counter());
  }

  /** A covered log satisfies every reseed. */
  lemma CoveredReseeds(s: State, n: NodeId)
    requires n in s.nodes && s.nodes[n].sweep.Waiting? && s.nodes[n].applied <= |s.log| && Covered(s.log)
    ensures ReseedOk(s, n)
  {
    var k := s.nodes[n].applied;
    forall i | 0 <= i < k && s.log[i].Clog? ensures s.log[i].li < Carried(s.log[..k]) {
      assert CoveredAt(s.log, i);
      CarriedGrows(s.log[..k], i + 1);
      assert s.log[..k][..i + 1] == s.log[..i + 1];
    }
  }

  // ---- The watermark ------------------------------------------------------------------------

  /** FRESH XIDS: with counters past the records, a marker from an xid taken in this term, through the
      open gate, lies past every recorded watermark. */
  lemma FreshIsPast(s: State, n: NodeId, li: Xid)
    requires Counted(s) && n in s.nodes && s.nodes[n].leading && CanAppend(s.log, s.nodes[n].term) && s.nodes[n].Fresh(li)
    ensures BelowNone(s.log, li)
  {
    assert NodeCounted(s.log, s.nodes[n]) && LosUpTo(s.log, s.nodes[n].term, li);
  }

  /** A marker in force after an append was in force before, unless it is the new entry. */
  lemma InForceBefore(log: seq<Entry>, e: Entry, i: nat)
    requires InForce(log + [e], i) && i < |log|
    ensures InForce(log, i)
  {
    var log' := log + [e];
    assert forall j | 0 <= j < |log| :: log'[j] == log[j];
  }

  lemma InForcePrefix(log: seq<Entry>, k: nat, i: nat)
    requires i < k <= |log| && InForce(log, i)
    ensures InForce(log[..k], i)
  {
    assert forall j | 0 <= j < k :: log[..k][j] == log[j];
  }

  /** The new entry is in force exactly when it is a marker and its xid has no outcome. */
  lemma InForceNew(log: seq<Entry>, e: Entry)
    ensures InForce(log + [e], |log|) <==> e.IsMark() && !HasOutcome(log, e.li)
  {
    var log' := log + [e];
    assert forall j | 0 <= j < |log| :: log'[j] == log[j];
    if e.IsMark() && !HasOutcome(log, e.li) {
      assert forall j | 0 <= j < |log| && log[j].Clog? && log[j].li == e.li :: log[j].mark.Some?;
    }
    if e.IsMark() && HasOutcome(log, e.li) {
      var j :| 0 <= j < |log| && log[j].Clog? && log[j].li == e.li && log[j].mark.None?;
      assert log'[j].li == log'[|log|].li;
    }
  }

  /** EXACT CONDITION for a marker: it keeps the watermarks sound exactly when it is decided, dropped,
      or not below one of them. */
  lemma MarkExact(log: seq<Entry>, decided: set<Xid>, e: Entry)
    requires LosSafe(log, decided) && e.Clog?
    ensures LosSafe(log + [e], decided) <==>
            e.mark.None? || HasOutcome(log, e.li) || e.mark.value in decided || BelowNone(log, e.li)
  {
    var log' := log + [e];
    InForceNew(log, e);
    if e.mark.None? || HasOutcome(log, e.li) || e.mark.value in decided || BelowNone(log, e.li) {
      forall i, j | 0 <= i < |log'| && log'[i].Lo? && InForce(log', j) && log'[j].li < log'[i].lo
        ensures log'[j].mark.value in decided
      {
        assert log'[i] == log[i];
        if j < |log| {
          InForceBefore(log, e, j);
          assert SafeLo(log, decided, log[i].lo);
        }
      }
    } else {
      var i :| 0 <= i < |log| && log[i].Lo? && log[i].lo > e.li;
      assert log'[i] == log[i] && !SafeLo(log', decided, log'[i].lo);
    }
  }

  /** A sweep still in its own term has missed nothing: what has been recorded since its scan is of
      terms from its own on, and no later term has appended. */
  lemma OwnSweepMissesNothing(s: State, n: NodeId)
    requires Inv(s) && Enabled(s, Advance(n)) && OwnSweep(s, n)
    ensures forall i | s.nodes[n].sweep.k <= i < |s.log| :: !s.log[i].IsMark()
    ensures AdvanceOk(s, n)
  {
    assert NodeOk(s.log, s.nodes[n]);
  }

  /** EXACT CONDITION for the watermark: recording the bound of a clean sweep is sound exactly when no
      marker in force below the bound that has been recorded past its scan is in doubt. */
  lemma AdvanceExact(s: State, n: NodeId)
    requires Inv(s) && Sound(s) && Enabled(s, Advance(n))
    ensures LosSafe(s.log + [Lo(s.nodes[n].term, s.nodes[n].sweep.newLo)], s.decided) <==> AdvanceOk(s, n)
  {
    var k, lo, e := s.nodes[n].sweep.k, s.nodes[n].sweep.newLo, Lo(s.nodes[n].term, s.nodes[n].sweep.newLo);
    var log' := s.log + [e];
    assert NodeOk(s.log, s.nodes[n]) && NodeSettled(s.log, s.decided, s.nodes[n]);
    InForceNew(s.log, e);
    if AdvanceOk(s, n) {
      forall i, j | 0 <= i < |log'| && log'[i].Lo? && InForce(log', j) && log'[j].li < log'[i].lo
        ensures log'[j].mark.value in s.decided
      {
        InForceBefore(s.log, e, j);
        if i < |s.log| {
          assert log'[i] == s.log[i] && SafeLo(s.log, s.decided, s.log[i].lo);
        }
      }
    } else {
      var j :| k <= j && InForce(s.log, j) && s.log[j].li < lo && s.log[j].mark.value !in s.decided;
      StillInForce(s.log, e, j);
      assert log'[|s.log|].Lo? && !SafeLo(log', s.decided, lo);
    }
  }

  lemma StillInForce(log: seq<Entry>, e: Entry, i: nat)
    requires InForce(log, i) && !e.Clog?
    ensures InForce(log + [e], i)
  {
    var log' := log + [e];
    assert forall j | 0 <= j < |log| :: log'[j] == log[j];
  }

  // ---- What the watermark keeps sound ---------------------------------------------------------

  lemma SettledStays(log: seq<Entry>, decided: set<Xid>, e: Entry, node: Node)
    requires NodeOk(log, node) && NodeSettled(log, decided, node) && CanAppend(log, e.term)
    ensures NodeSettled(log + [e], decided, node)
  {
    var log' := log + [e];
    if node.served > 0 {
      var w :| Sealed(log, node.served, w);
      SealedStays(log, e, node.served, w);
    }
    BeforeStays(log, decided, e, node.served);
    if node.sweep.Clean? {
      SealedStays(log, e, node.sweep.t, node.sweep.w);
      BeforeStays(log, decided, e, node.sweep.t);
      forall i | i < node.sweep.k && InForce(log', i) && log'[i].li < node.sweep.newLo ensures log'[i].mark.value in decided {
        InForceBefore(log, e, i);
        assert log'[i] == log[i];
      }
    }
  }

  lemma BeforeStays(log: seq<Entry>, decided: set<Xid>, e: Entry, t: Term)
    requires SettledBefore(log, decided, t) && e.term >= t
    ensures SettledBefore(log + [e], decided, t)
  {
    var log' := log + [e];
    forall i | InForce(log', i) && log'[i].term < t ensures log'[i].mark.value in decided {
      InForceBefore(log, e, i);
      assert log'[i] == log[i];
    }
  }

  lemma AppendKeepsSound(s: State, e: Entry)
    requires Inv(s) && Sound(s) && CanAppend(s.log, e.term) && LosSafe(s.log + [e], s.decided)
    ensures Sound(s.(log := s.log + [e]))
  {
    forall m | m in s.nodes ensures NodeSettled(s.log + [e], s.decided, s.nodes[m]) {
      assert NodeOk(s.log, s.nodes[m]);
      SettledStays(s.log, s.decided, e, s.nodes[m]);
    }
  }

  /** An empty re-scan on a lagging replica, from a sound watermark, means every marker of earlier
      terms is decided. */
  lemma RescanIsClean(log: seq<Entry>, decided: set<Xid>, t: Term, w: nat, k: nat, replica: set<Xid>, lo: Xid)
    requires LosSafe(log, decided) && Sealed(log, t, w) && w <= k <= |log| && replica <= decided
    requires ReadsLo(log[..k], lo) && EmptyScan(log[..k], replica, lo)
    ensures ScanSafe(log, decided, k, NewLo(log[..k], lo)) && SettledBefore(log, decided, t)
  {
    assert SafeLo(log, decided, lo) by {
      if lo != 0 {
        var j :| 0 <= j < k && log[..k][j] == Lo(log[..k][j].term, lo);
        assert log[j].Lo? && log[j].lo == lo;
      }
    }
    forall i | i < k && InForce(log, i) ensures log[i].mark.value in decided {
      InForcePrefix(log, k, i);
      assert log[..k][i] == log[i];
    }
  }

  lemma PlainIsSafe(log: seq<Entry>, decided: set<Xid>, e: Entry)
    requires LosSafe(log, decided) && (e.Noop? || e.Count?)
    ensures LosSafe(log + [e], decided)
  {
    var log' := log + [e];
    forall i, j | 0 <= i < |log'| && log'[i].Lo? && InForce(log', j) && log'[j].li < log'[i].lo
      ensures log'[j].mark.value in decided
    {
      InForceBefore(log, e, j);
      assert log'[i] == log[i] && SafeLo(log, decided, log[i].lo);
    }
  }

  lemma SoundNode(s: State, n: NodeId, node: Node)
    requires Sound(s) && n in s.nodes && NodeSettled(s.log, s.decided, node)
    ensures Sound(With(s, n, node))
  {}

  /** The steps that touch neither markers nor watermarks. */
  lemma QuietStep(s: State, act: Action)
    requires Inv(s) && Sound(s) && Enabled(s, act) && !act.AppendClog? && !act.Advance?
    ensures Sound(Step(s, act))
  {
    match act
    case Decide(g) =>
    case AppendNoop(n) =>
      PlainIsSafe(s.log, s.decided, Noop(s.nodes[n].term));
      AppendKeepsSound(s, Noop(s.nodes[n].term));
    case AppendCount(n, v) =>
      PlainIsSafe(s.log, s.decided, Count(s.nodes[n].term, v));
      AppendKeepsSound(s, Count(s.nodes[n].term, v));
    case Rescan(n, replica, lo) =>
      assert NodeOk(s.log, s.nodes[n]);
      RescanIsClean(s.log, s.decided, s.nodes[n].sweep.t, s.nodes[n].sweep.w, s.nodes[n].applied, replica, lo);
      SoundNode(s, n, Step(s, act).nodes[n]);
    case Elect(n, t) => SoundNode(s, n, Step(s, act).nodes[n]);
    case Depose(n, t) => SoundNode(s, n, Step(s, act).nodes[n]);
    case Crash(n) => SoundNode(s, n, Step(s, act).nodes[n]);
    case Take(n) => SoundNode(s, n, Step(s, act).nodes[n]);
    case ApplyTo(n, k) => SoundNode(s, n, Step(s, act).nodes[n]);
    case Begin(n) => SoundNode(s, n, Step(s, act).nodes[n]);
    case Linearize(n, i) => SoundNode(s, n, Step(s, act).nodes[n]);
    case Reseed(n) => SoundNode(s, n, Step(s, act).nodes[n]);
    case MarkServed(n) => SoundNode(s, n, Step(s, act).nodes[n]);
    case Fail(n) => SoundNode(s, n, Step(s, act).nodes[n]);
  }

  /** Every step keeps the watermarks sound exactly when its condition is met. */
  lemma StepIff(s: State, act: Action)
    requires Inv(s) && Sound(s) && Enabled(s, act)
    ensures LosSafe(Step(s, act).log, Step(s, act).decided) <==> StepOk(s, act)
    ensures StepOk(s, act) ==> Sound(Step(s, act))
  {
    if act.AppendClog? {
      var e := Clog(s.nodes[act.n].term, act.li, act.mark, act.counter);
      MarkExact(s.log, s.decided, e);
      if StepOk(s, act) { AppendKeepsSound(s, e); }
    } else if act.Advance? {
      AdvanceExact(s, act.n);
      if StepOk(s, act) { AppendKeepsSound(s, Lo(s.nodes[act.n].term, s.nodes[act.n].sweep.newLo)); }
    } else {
      QuietStep(s, act);
    }
  }

  /** The first `i` steps of the run all meet their conditions. */
  ghost predicate AllOk(states: seq<State>, acts: seq<Action>, i: nat)
    requires Run(states, acts) && i <= |acts|
  {
    forall j | 0 <= j < i :: StepOk(states[j], acts[j])
  }

  /** Of all runs, exactly those whose every step meets its condition keep every watermark sound in
      every state. */
  lemma {:induction false} RunIff(states: seq<State>, acts: seq<Action>, i: nat)
    requires Run(states, acts) && i <= |acts|
    ensures (forall j | 0 <= j <= i :: LosSafe(states[j].log, states[j].decided)) <==> AllOk(states, acts, i)
    ensures AllOk(states, acts, i) ==> Sound(states[i])
  {
    if i > 0 {
      RunIff(states, acts, i - 1);
      if AllOk(states, acts, i - 1) {
        RunKeepsInv(states, acts, i - 1);
        StepIff(states[i - 1], acts[i - 1]);
        assert states[i] == Step(states[i - 1], acts[i - 1]);
      }
    }
  }

  // ---- Runs whose sessions and sweeps check ---------------------------------------------------

  ghost predicate AllInputOk(states: seq<State>, acts: seq<Action>, i: nat)
    requires Run(states, acts) && i <= |acts|
  {
    forall j | 0 <= j < i :: InputOk(states[j], acts[j])
  }

  /** A step that checks keeps the log covered, and meets the other conditions. */
  lemma InputStep(s: State, act: Action)
    requires Inv(s) && Counted(s) && Covered(s.log) && Enabled(s, act) && InputOk(s, act)
    ensures Covered(Step(s, act).log) && SeedOk(s, act) && StepOk(s, act)
  {
    match act
    case AppendClog(n, li, mark, counter) =>
      CoveredIff(s.log, Clog(s.nodes[n].term, li, mark, counter));
      if s.nodes[n].Fresh(li) { FreshIsPast(s, n, li); }
    case AppendNoop(n) => CoveredIff(s.log, Noop(s.nodes[n].term));
    case AppendCount(n, v) => CoveredIff(s.log, Count(s.nodes[n].term, v));
    case Advance(n) =>
      CoveredIff(s.log, Lo(s.nodes[n].term, s.nodes[n].sweep.newLo));
      if OwnSweep(s, n) { OwnSweepMissesNothing(s, n); }
    case Reseed(n) => CoveredReseeds(s, n);
    case _ =>
  }

  /** Runs in which every record carries the counter or follows one past it, every marker in doubt is
      from an xid of the current term or past the watermarks, and every watermark comes from a sweep in
      its own term, meet every condition. */
  lemma {:induction false} InputsSuffice(states: seq<State>, acts: seq<Action>, i: nat)
    requires Run(states, acts) && i <= |acts| && AllInputOk(states, acts, i)
    ensures AllOk(states, acts, i) && AllSeedOk(states, acts, i) && Covered(states[i].log)
  {
    if i > 0 {
      InputsSuffice(states, acts, i - 1);
      RunKeepsInv(states, acts, i - 1);
      RunCounted(states, acts, i - 1);
      InputStep(states[i - 1], acts[i - 1]);
      assert states[i] == Step(states[i - 1], acts[i - 1]);
    }
  }

  // ---- What such runs guarantee ---------------------------------------------------------------

  /** SETTLE BEFORE SERVE: whenever a node serves, every marker of an earlier term has a terminal
      global decision, although its sweep read a lagging replica and its abort races may fail. */
  lemma SettleBeforeServe(states: seq<State>, acts: seq<Action>, i: nat, n: NodeId)
    requires Run(states, acts) && i < |states| && AllOk(states, acts, i)
    requires n in states[i].nodes && states[i].nodes[n].Serving()
    ensures SettledBefore(states[i].log, states[i].decided, states[i].nodes[n].term)
  {
    RunIff(states, acts, i);
    assert NodeSettled(states[i].log, states[i].decided, states[i].nodes[n]);
  }

  /** No marker in doubt lies below any watermark on the log. */
  lemma WatermarkHolds(states: seq<State>, acts: seq<Action>, i: nat, lo: Xid)
    requires Run(states, acts) && i < |states| && AllOk(states, acts, i) && ReadsLo(states[i].log, lo)
    ensures SafeLo(states[i].log, states[i].decided, lo)
  {
    RunIff(states, acts, i);
    if lo != 0 {
      var j :| 0 <= j < |states[i].log| && states[i].log[j] == Lo(states[i].log[j].term, lo);
      assert states[i].log[j].Lo?;
    }
  }

  /** A gate opens only by a sweep that began in the term it opens, in every run. */
  lemma OpensOwnTerm(states: seq<State>, acts: seq<Action>, i: nat, n: NodeId)
    requires Run(states, acts) && i < |acts| && n in states[i].nodes
    requires !states[i].nodes[n].Serving() && states[i + 1].nodes[n].Serving()
    ensures acts[i] == MarkServed(n) && states[i].nodes[n].sweep.t == states[i + 1].nodes[n].term
  {
    RunKeepsInv(states, acts, i);
    assert NodeOk(states[i].log, states[i].nodes[n]);
    assert Enabled(states[i], acts[i]) && states[i + 1] == Step(states[i], acts[i]);
  }

  // ---- The scan of a log prefix ---------------------------------------------------------------

  /** The clog a node has after applying `log`: an outcome is written once. */
  function ClogOf(log: seq<Entry>): RecoveryScan.Clog {
    if log == [] then map[]
    else
      var e, clog := log[|log| - 1], ClogOf(log[..|log| - 1]);
      if !e.Clog? || (e.li in clog && !clog[e.li].Prepared?) then clog else clog[e.li := StatusOf(e)]
  }

  function StatusOf(e: Entry): Status
    requires e.Clog?
  {
    if e.mark.Some? then Prepared(e.mark.value) else Committed
  }

  /** The records of the log, and no others, are in the clog; an xid is settled there exactly when its
      outcome is on the log. */
  lemma {:induction false} ClogHas(log: seq<Entry>, li: Xid)
    ensures li in ClogOf(log) <==> exists i :: 0 <= i < |log| && log[i].Clog? && log[i].li == li
    ensures li in ClogOf(log) ==> (HasOutcome(log, li) <==> !ClogOf(log)[li].Prepared?)
    ensures HasOutcome(log, li) ==> li in ClogOf(log)
  {
    if log != [] {
      var n := |log| - 1;
      ClogHas(log[..n], li);
      assert forall i | 0 <= i < n :: log[..n][i] == log[i];
      OutcomeStep(log, li);
      if log[n].Clog? && log[n].li == li { assert log[n].li == li; }
    }
  }

  lemma OutcomeStep(log: seq<Entry>, li: Xid)
    requires log != []
    ensures var n := |log| - 1;
            HasOutcome(log, li) <==> HasOutcome(log[..n], li) || (log[n].Clog? && log[n].li == li && log[n].mark.None?)
  {
    var n := |log| - 1;
    assert forall i | 0 <= i < n :: log[..n][i] == log[i];
    if HasOutcome(log[..n], li) {
      var i :| 0 <= i < n && log[..n][i].Clog? && log[..n][i].li == li && log[..n][i].mark.None?;
      assert log[i].Clog? && log[i].li == li && log[i].mark.None?;
    }
  }

  /** A marker is in force exactly when it is what the clog says of its xid. */
  lemma {:induction false} MarkerIs(log: seq<Entry>, li: Xid, g: Xid)
    ensures li in ClogOf(log) && ClogOf(log)[li] == Prepared(g) <==>
            exists i :: InForce(log, i) && log[i].li == li && log[i].mark.value == g
  {
    if log != [] {
      var n := |log| - 1;
      var pre, e := log[..n], log[n];
      assert log == pre + [e];
      MarkerIs(pre, li, g);
      ClogHas(pre, li);
      InForceNew(pre, e);
      if e.Clog? && e.li == li {
        forall i | i < n && InForce(log, i) ensures log[i].li != li { assert log[n].li == li; }
        if InForce(log, n) { assert log[n].mark.value == g || e.mark.value != g; }
      } else {
        forall i: nat | i < n ensures InForce(log, i) && log[i].li == li <==> InForce(pre, i) && pre[i].li == li {
          SameForce(pre, e, i, li);
        }
      }
    }
  }

  /** A record of another xid puts no marker out of force. */
  lemma SameForce(log: seq<Entry>, e: Entry, i: nat, li: Xid)
    requires i < |log| && (e.Clog? ==> e.li != li)
    ensures InForce(log + [e], i) && (log + [e])[i].li == li <==> InForce(log, i) && log[i].li == li
  {
    var log' := log + [e];
    assert forall j | 0 <= j < |log| :: log'[j] == log[j];
    if InForce(log', i) { InForceBefore(log, e, i); }
  }

  /** Local xids lie below the global ones. */
  ghost predicate LocalXids(log: seq<Entry>) {
    forall i | 0 <= i < |log| && log[i].Clog? :: log[i].li < GLOBAL_XID_BASE
  }

  /** The sweep's re-scan in the state machine is `in_doubt_globals_from` over the applied clog:
      empty together, and with the same new watermark. */
  lemma ScanAgrees(log: seq<Entry>, replica: set<Xid>, lo: Xid, newLo: Xid)
    requires LocalXids(log)
    requires forall li | li in ClogOf(log) && InRange(li, lo) :: li < newLo
    requires newLo == lo || (newLo > lo && InRange(newLo - 1, lo) && newLo - 1 in ClogOf(log))
    ensures InDoubt(ClogOf(log), replica, lo) == {} <==> EmptyScan(log, replica, lo)
    ensures newLo == NewLo(log, lo)
  {
    var clog := ClogOf(log);
    ScanEmptyIff(log, replica, lo);
    forall i | 0 <= i < |log| && log[i].Clog? ensures log[i].li in clog { ClogHas(log, log[i].li); }
    if newLo > lo { ClogHas(log, newLo - 1); }
  }

  lemma ScanEmptyIff(log: seq<Entry>, replica: set<Xid>, lo: Xid)
    requires LocalXids(log)
    ensures InDoubt(ClogOf(log), replica, lo) == {} <==> EmptyScan(log, replica, lo)
  {
    var clog := ClogOf(log);
    if EmptyScan(log, replica, lo) {
      forall li | li in clog && InRange(li, lo) ensures !InDoubtAt(clog, replica, li) {
        if clog[li].Prepared? { MarkerIs(log, li, clog[li].g); }
      }
    } else {
      var i :| InForce(log, i) && log[i].li >= lo && log[i].mark.value !in replica;
      MarkerIs(log, log[i].li, log[i].mark.value);
      assert InDoubtAt(clog, replica, log[i].li) && InRange(log[i].li, lo);
      assert clog[log[i].li].g in InDoubt(clog, replica, lo);
    }
  }

  lemma MoreDecided(log: seq<Entry>, decided: set<Xid>, decided': set<Xid>)
    requires LosSafe(log, decided) && decided <= decided'
    ensures LosSafe(log, decided')
  {
    forall i | 0 <= i < |log| && log[i].Lo? ensures SafeLo(log, decided', log[i].lo) {
      assert SafeLo(log, decided, log[i].lo);
    }
  }

  /** The watermarks were sound at every length the log has had. */
  lemma {:induction false} PrefixesSafe(states: seq<State>, acts: seq<Action>, i: nat, k: nat)
    requires Run(states, acts) && i < |states| && AllOk(states, acts, i) && k <= |states[i].log|
    ensures LosSafe(states[i].log[..k], states[i].decided)
  {
    if k == |states[i].log| {
      RunIff(states, acts, i);
      assert states[i].log[..k] == states[i].log;
    } else if i > 0 {
      Grows(states[i - 1], acts[i - 1]);
      assert states[i] == Step(states[i - 1], acts[i - 1]);
      PrefixesSafe(states, acts, i - 1, k);
      assert states[i].log[..k] == states[i - 1].log[..k];
      MoreDecided(states[i].log[..k], states[i - 1].decided, states[i].decided);
    }
  }

  lemma Grows(s: State, act: Action)
    requires Enabled(s, act)
    ensures s.log <= Step(s, act).log && |Step(s, act).log| <= |s.log| + 1 && s.decided <= Step(s, act).decided
  {}

  lemma SafeInClog(log: seq<Entry>, decided: set<Xid>, lo: Xid)
    requires SafeLo(log, decided, lo)
    ensures WatermarkOk(ClogOf(log), decided, lo)
  {
    forall li: Xid | li < lo ensures !InDoubtAt(ClogOf(log), decided, li) {
      if li in ClogOf(log) && ClogOf(log)[li].Prepared? { MarkerIs(log, li, ClogOf(log)[li].g); }
    }
  }

  /** RECOVERY SCAN COMPLETENESS, over every such run: whatever watermark a node reads after applying any
      prefix, the bounded scan of its clog finds exactly the undecided globals the full scan would,
      a lagging replica only adds decided ones, and the marker of an undecided global is found. */
  lemma RunScanComplete(states: seq<State>, acts: seq<Action>, i: nat, k: nat, lo: Xid, replica: set<Xid>)
    requires Run(states, acts) && i < |states| && AllOk(states, acts, i)
    requires k <= |states[i].log| && ReadsLo(states[i].log[..k], lo) && replica <= states[i].decided
    ensures var clog, decided := ClogOf(states[i].log[..k]), states[i].decided;
            && InDoubt(clog, decided, lo) == InDoubt(clog, decided, 0)
            && InDoubt(clog, decided, 0) <= InDoubt(clog, replica, lo) <= InDoubt(clog, replica, 0)
            && (forall li: Xid | InDoubtAt(clog, decided, li) && li < GLOBAL_XID_BASE :: InRange(li, lo))
  {
    var pre, decided := states[i].log[..k], states[i].decided;
    PrefixesSafe(states, acts, i, k);
    assert SafeLo(pre, decided, lo) by {
      if lo != 0 {
        var j :| 0 <= j < |pre| && pre[j] == Lo(pre[j].term, lo);
        assert pre[j].Lo?;
      }
    }
    SafeInClog(pre, decided, lo);
    BoundedScanComplete(ClogOf(pre), decided, replica, lo);
  }
}
