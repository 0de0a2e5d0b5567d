/** The participant side of two-phase commit: the recovery gate, the registry of held sessions
    and the locks the rise sweep gives back. */
module TwoPhase {
  import opened Base
  import opened Visibility
  import opened RecoveryScan

  type RangeId = nat

  /** Below any term a node can lead in. */
  const UNSETTLED: Term := 0

  datatype Metrics = Metrics(leader: Option<NodeId>, isLeader: bool, term: Term)

  class RecoveryGate {
    const id: NodeId
    /** The last term each registered range settled. */
    var served: map<RangeId, Term>

    constructor (id: NodeId)
      ensures this.id == id && served == map[]
    {
      this.id, served := id, map[];
    }

    /** Idempotent; a new range is gated until its first sweep. */
    method RegisterRange(range: RangeId)
      modifies this
      ensures served.Keys == old(served).Keys + {range}
      ensures forall r | r in served :: served[r] == if r in old(served) then old(served)[r] else UNSETTLED
      ensures range !in old(served) ==> forall m: Metrics | m.term != UNSETTLED :: !IsServing(range, m)
    {
      if range !in served { served := served[range := UNSETTLED]; }
    }

    /** An unregistered range is not this node's concern. */
    predicate IsServing(range: RangeId, m: Metrics)
      reads this
    {
      range !in served || Serves(m.leader == Some(id) && m.isLeader, served[range], m.term)
    }

    method MarkServed(range: RangeId, term: Term)
      modifies this
      ensures served.Keys == old(served).Keys
      ensures forall r | r in served :: served[r] == if r == range then term else old(served)[r]
      ensures range in served ==> forall m: Metrics ::
                IsServing(range, m) <==> m.leader == Some(id) && m.isLeader && m.term == term
    {
      if range in served { served := served[range := term]; }
    }
  }

  // ---- Held sessions --------------------------------------------------------------------------

  /** A participant session is named by its global transaction and range. */
  type Handle = (Xid, RangeId)

  datatype Reply = SaidCommitted | SaidAborted | Staged | Released | NotLeader | Retryable | Error
  type Answer = Option<Reply>   // None: no leader or a broken connection

  predicate Decides(a: Answer) { a == Some(SaidCommitted) || a == Some(SaidAborted) }

  /** How a session ended: its rows made visible or left invisible, its locks freed. */
  datatype Ended = Ended(h: Handle, commit: bool)

  /** Every chosen session with a decision has ended exactly once, as decided; every other session
      is still held, with the time it joined. */
  ghost predicate Resolved(held: map<Handle, nat>, ended: seq<Ended>, held': map<Handle, nat>, ended': seq<Ended>,
                           chosen: set<Handle>, answers: map<Xid, Answer>)
  {
    && held' == held - Decided(chosen, answers)
    && |ended| <= |ended'| && ended'[..|ended|] == ended
    && multiset(ended'[|ended|..]) == multiset(Outcomes(held, chosen, answers))
  }

  /** The chosen sessions whose transaction was answered with a decision. */
  function Decided(chosen: set<Handle>, answers: map<Xid, Answer>): set<Handle> {
    set h | h in chosen && h.0 in answers && Decides(answers[h.0])
  }

  function Outcome(h: Handle, answers: map<Xid, Answer>): Ended {
    Ended(h, h.0 in answers && answers[h.0] == Some(SaidCommitted))
  }

  function Outcomes(held: map<Handle, nat>, chosen: set<Handle>, answers: map<Xid, Answer>): set<Ended> {
    set h | h in held && h in Decided(chosen, answers) :: Outcome(h, answers)
  }

  datatype ExecError = NotLeading | Conflicted | Deadlocked | Other

  /** `map_exec_err`: what the coordinator is told to do about a participant's failure. */
  function Wire(e: ExecError): (reply: Reply)
    ensures reply == NotLeader <==> e == NotLeading
    ensures reply == Retryable <==> e == Conflicted || e == Deadlocked
    ensures reply == Error <==> e == Other
  {
    match e
    case NotLeading => NotLeader
    case Conflicted | Deadlocked => Retryable
    case Other => Error
  }

  /** What a stage meets, in order: the hosted and serving tests, the marker lookup, the parser, and
      the session's begin, join and run with the error each ends in, if any. */
  datatype StageInput = StageInput(hosted: bool, serving: bool, marker: Result<Option<Xid>, ExecError>, parses: bool,
                                   begin: Option<ExecError>, join: Option<ExecError>, run: Option<ExecError>)

  class TxnService {
    /** When each held session joined its transaction. */
    var held: map<Handle, nat>
    /** Sessions that have been released, oldest first. */
    var ended: seq<Ended>

    constructor ()
      ensures held == map[] && ended == []
    {
      held, ended := map[], [];
    }

    /** `stage`: a session is joined exactly on a hosted, serving range, for one statement, with no
        durable marker of a lost session standing for it; the statement runs exactly when that
        session begins and joins. A session keeps its first joining time, and stays held when
        its statement fails. */
    method Stage(g: Xid, range: RangeId, now: nat, input: StageInput) returns (reply: Reply, ran: bool)
      modifies this`held
      ensures ran <==> && input.hosted && input.serving && input.parses && input.begin.None? && input.join.None?
                       && ((g, range) in old(held) || input.marker == Ok(None))
      ensures held == if && input.hosted && input.serving && input.parses && (g, range) !in old(held)
                         && input.marker == Ok(None)
                      then old(held)[(g, range) := now] else old(held)
      ensures ran ==> (g, range) in held && reply == if input.run.None? then Staged else Wire(input.run.value)
      ensures !input.hosted || !input.serving ==> reply == NotLeader
      ensures input.hosted && input.serving && (g, range) !in old(held) ==>
              && (input.marker.Err? ==> reply == Wire(input.marker.error))
              && (input.marker.Ok? && input.marker.value.Some? ==> reply == Staged)
      ensures input.hosted && input.serving && ((g, range) in old(held) || input.marker == Ok(None)) ==>
              && (!input.parses ==> reply == Error)
              && (input.parses && input.begin.Some? ==> reply == Wire(input.begin.value))
              && (input.parses && input.begin.None? && input.join.Some? ==> reply == Wire(input.join.value))
    {
      if !input.hosted { return NotLeader, false; }
      if !input.serving { return NotLeader, false; }
      if (g, range) !in held {
        match input.marker
        case Ok(Some(_)) => return Staged, false;
        case Ok(None) =>
        case Err(e) => return Wire(e), false;
      }
      if !input.parses { return Error, false; }
      if (g, range) !in held { held := held[(g, range) := now]; }
      if input.begin.Some? { return Wire(input.begin.value), false; }
      if input.join.Some? { return Wire(input.join.value), false; }
      return if input.run.None? then Staged else Wire(input.run.value), true;
    }

    /** `release`: unknown handles are a no-op success. */
    method Release(g: Xid, range: RangeId, commit: bool) returns (reply: Reply)
      modifies this
      ensures reply == Released && held == old(held) - {(g, range)}
      ensures ended == old(ended) + if (g, range) in old(held) then [Ended((g, range), commit)] else []
    {
      if (g, range) in held {
        ended := ended + [Ended((g, range), commit)];
        held := held - {(g, range)};
      }
      return Released;
    }

    /** `resolve_in_doubt`: the session ends only with a decision in hand, and as it says. */
    method ResolveInDoubt(h: Handle, answer: Answer)
      modifies this
      ensures held == if Decides(answer) then old(held) - {h} else old(held)
      ensures ended == old(ended) + if Decides(answer) && h in old(held) then [Ended(h, answer == Some(SaidCommitted))] else []
    {
      if !Decides(answer) { return; }
      var committed := answer == Some(SaidCommitted);
      if h in held {
        held := held - {h};
        ended := ended + [Ended(h, committed)];
      } else {
        assert old(held) - {h} == old(held);
      }
    }

    /** The loop shared by `sweep_stale` and `resolve_and_release_for_range`. */
    method ResolveAll(chosen: set<Handle>, answers: map<Xid, Answer>)
      requires chosen <= held.Keys && forall h | h in chosen :: h.0 in answers
      modifies this
      ensures Resolved(old(held), old(ended), held, ended, chosen, answers)
    {
      var rest := chosen;
      while rest != {}
        invariant rest <= chosen
        invariant Resolved(old(held), old(ended), held, ended, chosen - rest, answers)
      {
        var h :| h in rest;
        ResolvedStep(old(held), old(ended), held, ended, chosen - rest, answers, h);
        ResolveInDoubt(h, answers[h.0]);
        assert chosen - (rest - {h}) == chosen - rest + {h};
        rest := rest - {h};
      }
      assert chosen - {} == chosen;
    }

    /** `sweep_stale`: the sessions that joined at least `timeout` ago. */
    method SweepStale(now: nat, timeout: nat, answers: map<Xid, Answer>)
      requires forall h | h in held :: h.0 in answers
      modifies this
      ensures Resolved(old(held), old(ended), held, ended, (set h | h in old(held) && now - old(held)[h] >= timeout), answers)
      ensures forall h :: h in held <==>
                h in old(held) && !(now - old(held)[h] >= timeout && answers[h.0] in {Some(SaidCommitted), Some(SaidAborted)})
      ensures forall h | h in held :: held[h] == old(held)[h]
      ensures |old(ended)| <= |ended| && ended[..|old(ended)|] == old(ended)
      ensures forall h, commit :: multiset(ended[|old(ended)|..])[Ended(h, commit)] ==
                if && h in old(held) && now - old(held)[h] >= timeout
                   && answers[h.0] == Some(if commit then SaidCommitted else SaidAborted)
                then 1 else 0
    {
      var stale := set h | h in held && now - held[h] >= timeout;
      ResolveAll(stale, answers);
      ResolvedMeans(old(held), old(ended), held, ended, stale, answers);
    }

    /** `resolve_and_release_for_range`, on the loss of leadership of `range`. */
    method ResolveAndReleaseForRange(range: RangeId, answers: map<Xid, Answer>)
      requires forall h | h in held :: h.0 in answers
      modifies this
      ensures Resolved(old(held), old(ended), held, ended, (set h | h in old(held) && h.1 == range), answers)
      ensures forall h :: h in held <==>
                h in old(held) && !(h.1 == range && answers[h.0] in {Some(SaidCommitted), Some(SaidAborted)})
      ensures forall h | h in held :: held[h] == old(held)[h]
      ensures |old(ended)| <= |ended| && ended[..|old(ended)|] == old(ended)
      ensures forall h, commit :: multiset(ended[|old(ended)|..])[Ended(h, commit)] ==
                if && h in old(held) && h.1 == range
                   && answers[h.0] == Some(if commit then SaidCommitted else SaidAborted)
                then 1 else 0
    {
      var here := set h | h in held && h.1 == range;
      ResolveAll(here, answers);
      ResolvedMeans(old(held), old(ended), held, ended, here, answers);
    }
  }

  /** The chosen sessions with a decision, and no others, leave; each leaves once, as decided. */
  lemma ResolvedMeans(held: map<Handle, nat>, ended: seq<Ended>, held': map<Handle, nat>, ended': seq<Ended>,
                      chosen: set<Handle>, answers: map<Xid, Answer>)
    requires Resolved(held, ended, held', ended', chosen, answers) && chosen <= held.Keys
    requires forall h | h in chosen :: h.0 in answers
    ensures forall h :: h in held' <==>
              h in held && !(h in chosen && answers[h.0] in {Some(SaidCommitted), Some(SaidAborted)})
    ensures forall h, commit :: multiset(ended'[|ended|..])[Ended(h, commit)] ==
              if h in chosen && answers[h.0] == Some(if commit then SaidCommitted else SaidAborted) then 1 else 0
  {
    forall h, commit
      ensures multiset(ended'[|ended|..])[Ended(h, commit)] ==
              if h in chosen && answers[h.0] == Some(if commit then SaidCommitted else SaidAborted) then 1 else 0
    {
      var all := Outcomes(held, chosen, answers);
      assert multiset(all)[Ended(h, commit)] == if Ended(h, commit) in all then 1 else 0;
      if h in chosen && answers[h.0] == Some(if commit then SaidCommitted else SaidAborted) {
        assert Outcome(h, answers) == Ended(h, commit) && h in Decided(chosen, answers);
      }
    }
  }

  /** Resolving one more session adds exactly its outcome. */
  lemma ResolvedStep(held: map<Handle, nat>, ended: seq<Ended>, held': map<Handle, nat>, ended': seq<Ended>,
                     chosen: set<Handle>, answers: map<Xid, Answer>, h: Handle)
    requires Resolved(held, ended, held', ended', chosen, answers) && h !in chosen && h in held && h.0 in answers
    ensures h in held'
    ensures Resolved(held, ended, if Decides(answers[h.0]) then held' - {h} else held',
                     ended' + if Decides(answers[h.0]) then [Outcome(h, answers)] else [], chosen + {h}, answers)
  {
    if Decides(answers[h.0]) {
      assert Decided(chosen + {h}, answers) == Decided(chosen, answers) + {h};
      OutcomesStep(held, chosen, answers, h);
      var more := ended' + [Outcome(h, answers)];
      assert more[|ended|..] == ended'[|ended|..] + [Outcome(h, answers)];
    } else {
      assert Decided(chosen + {h}, answers) == Decided(chosen, answers);
      assert ended' + [] == ended';
    }
  }

  lemma OutcomesStep(held: map<Handle, nat>, chosen: set<Handle>, answers: map<Xid, Answer>, h: Handle)
    requires h !in chosen && h in held && h.0 in answers && Decides(answers[h.0])
    ensures multiset(Outcomes(held, chosen + {h}, answers)) ==
            multiset(Outcomes(held, chosen, answers)) + multiset{Outcome(h, answers)}
  {
    assert Decided(chosen + {h}, answers) == Decided(chosen, answers) + {h};
    assert Outcomes(held, chosen + {h}, answers) == Outcomes(held, chosen, answers) + {Outcome(h, answers)};
    assert Outcome(h, answers) !in Outcomes(held, chosen, answers);
  }

  /** STAGING IS IDEMPOTENT across a failover: on a range whose gate is open and whose watermark
      is sound, a retried stage of an undecided transaction finds the marker its lost session
      left, so it neither runs the statement nor holds a second session. */
  method RestageFinds(svc: TxnService, scanned: seq<(Xid, Status)>, decided: set<Xid>, lo: Xid, clog: Clog, g: Xid, li: Xid,
                      range: RangeId, now: nat, run: Option<ExecError>) returns (reply: Reply, ran: bool)
    requires Scans(scanned, clog, lo) && WatermarkOk(clog, decided, lo)
    requires g !in decided && li in clog && clog[li] == Prepared(g) && li < GLOBAL_XID_BASE && (g, range) !in svc.held
    modifies svc`held
    ensures reply == Staged && !ran && svc.held == old(svc.held)
  {
    var found := StagedLocalFor(scanned, g, lo, clog);
    StagedIsFound(clog, decided, lo, g, li);
    reply, ran := svc.Stage(g, range, now, StageInput(true, true, Ok(found), true, None, None, run));
  }

  // ---- Locks the rise sweep gives back --------------------------------------------------------

  /** The sweep frees `li` when the race on its global transaction was answered at all. */
  function Freed(inDoubt: map<Xid, Xid>, answers: map<Xid, Answer>): set<Xid> {
    set li | li in inDoubt && inDoubt[li] in answers && answers[inDoubt[li]].Some?
  }

  /** What the answers establish: a Committed or Aborted answer means the decision is recorded. */
  ghost predicate Consistent(decided: set<Xid>, answers: map<Xid, Answer>) {
    forall g | g in answers && Decides(answers[g]) :: g in decided
  }

  /** EXACT CONDITION: the freed locks belong to decided transactions, whatever range 0 has
      recorded beyond the answers, exactly when every answer was a decision. An answer such as
      `NotLeader` counts as resolved, so a lock can be freed while its transaction is in doubt;
      only the re-scan keeps the gate closed then. */
  lemma FreedExact(inDoubt: map<Xid, Xid>, answers: map<Xid, Answer>)
    ensures (forall decided: set<Xid> | Consistent(decided, answers) ::
               forall li | li in Freed(inDoubt, answers) :: inDoubt[li] in decided) <==>
            (forall li | li in Freed(inDoubt, answers) :: Decides(answers[inDoubt[li]]))
  {
    var least := set g | g in answers && Decides(answers[g]);
    assert Consistent(least, answers);
  }

  /** Local transaction 5 is in doubt under 1, whose race was answered `NotLeader`: its lock is freed
      although nothing has been decided. */
  lemma FreedInDoubt()
    ensures var answers: map<Xid, Answer> := map[1 := Some(NotLeader)];
            Freed(map[5 := 1], answers) == {5} && Consistent({}, answers)
  {
    var inDoubt: map<Xid, Xid>, answers: map<Xid, Answer> := map[5 := 1], map[1 := Some(NotLeader)];
    assert inDoubt.Keys == {5} && answers[inDoubt[5]].Some?;
  }
}
