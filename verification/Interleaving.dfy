/**
 Any number of workers on one journal, with their atomic store operations and external calls
 interleaved in any order, each of them dying at any point, while recoveries move records on
 whatever stale snapshots they hold.
 */
module Interleaving {
  import opened Prelude
  import opened Sagas
  import opened Journal
  import opened Runs
  import opened Lifecycle

  /** How far a worker got with its step. */
  datatype Worker = Submitted(step: SagaStep) | Registered(step: SagaStep) | Claimed(step: SagaStep) | Called(step: SagaStep)

  /** `calls` lists the external calls so far, each with the record its worker had registered. */
  datatype State = State(ledger: Ledger, workers: map<nat, Worker>, calls: seq<Entry>)

  /**
   One atomic action. Worker actions do nothing when the worker is not at that point; a lost
   compare-and-set or an identity conflict ends the worker's attempt. Moves and commits are open to
   anybody at any time, except that the right to call is only ever claimed by a registered worker.
   */
  datatype Action =
    | Submit(worker: nat, step: SagaStep)
    | Register(worker: nat)
    | Claim(worker: nat)
    | Call(worker: nat)
    | Die(worker: nat)
    | MoveBy(stepId: string, site: Site, error: string)
    | Commit(stepId: string, key: Option<string>)
    | SetStatus(status: SagaStatus)
    | SetMetadata(metadata: Metadata)
    | DeadLetterAction(stepName: string, error: string)

  function Without(workers: map<nat, Worker>, w: nat): map<nat, Worker> {
    map v | v in workers && v != w :: workers[v]
  }

  function Apply(s: State, a: Action): State {
    match a
    case Submit(w, step) =>
      if w in s.workers then s else s.(workers := s.workers[w := Submitted(step)])
    case Register(w) =>
      if w !in s.workers || !s.workers[w].Submitted? then s else
      var l := PrepareEffect(s.ledger, s.workers[w].step);
      if l.Some? then s.(ledger := l.value, workers := s.workers[w := Registered(s.workers[w].step)])
      else s.(workers := Without(s.workers, w))
    case Claim(w) =>
      if w !in s.workers || !s.workers[w].Registered? then s else
      var l := MoveAt(s.ledger, s.workers[w].step.stepId, Site.Claim);
      if l.Some? then s.(ledger := l.value, workers := s.workers[w := Claimed(s.workers[w].step)])
      else s.(workers := Without(s.workers, w))
    case Call(w) =>
      if w !in s.workers || !s.workers[w].Claimed? then s else
      s.(calls := s.calls + [NewEntry(s.workers[w].step)], workers := s.workers[w := Called(s.workers[w].step)])
    case Die(w) =>
      s.(workers := Without(s.workers, w))
    case MoveBy(stepId, site, error) =>
      if site == Site.Claim then s else s.(ledger := MoveAt(s.ledger, stepId, site, error).GetOr(s.ledger))
    case Commit(stepId, key) =>
      s.(ledger := CommitEffect(s.ledger, stepId, key).GetOr(s.ledger))
    case SetStatus(status) =>
      s.(ledger := WriteStatus(s.ledger, status))
    case SetMetadata(metadata) =>
      s.(ledger := s.ledger.(metadata := metadata))
    case DeadLetterAction(stepName, error) =>
      s.(ledger := PushDeadLetter(s.ledger, stepName, error))
  }

  function ApplyAll(s: State, actions: seq<Action>): State
    decreases |actions|
  {
    if actions == [] then s else ApplyAll(Apply(s, actions[0]), actions[1..])
  }

  // ── The claim ─────────────────────────────────────────────────────

  /** The journal holds this record, as far as no later write may alter it. */
  ghost predicate Holds(entries: seq<Entry>, e: Entry) {
    exists i :: 0 <= i < |entries| && SameRecord(entries[i], e)
  }

  /** The record of this step has been claimed at some time: it is there and no longer PREPARED. */
  ghost predicate Taken(entries: seq<Entry>, stepId: string) {
    var i := IndexOf(entries, stepId);
    i < |entries| && entries[i].state != EffectState.Prepared
  }

  ghost predicate CalledFor(s: State, stepId: string) {
    exists k :: 0 <= k < |s.calls| && s.calls[k].stepId == stepId
  }

  ghost predicate Exclusive(s: State) {
    && (forall w | w in s.workers && !s.workers[w].Submitted? ::
          Holds(s.ledger.entries, NewEntry(s.workers[w].step)))
    && (forall w | w in s.workers && s.workers[w].Claimed? ::
          Taken(s.ledger.entries, s.workers[w].step.stepId) && !CalledFor(s, s.workers[w].step.stepId))
    && (forall v, w | v in s.workers && w in s.workers && s.workers[v].Claimed? && s.workers[w].Claimed?
          && s.workers[v].step.stepId == s.workers[w].step.stepId :: v == w)
    && (forall k | 0 <= k < |s.calls| ::
          Taken(s.ledger.entries, s.calls[k].stepId) && Holds(s.ledger.entries, s.calls[k]))
    && (forall j, k | 0 <= j < k < |s.calls| :: s.calls[j].stepId != s.calls[k].stepId)
  }

  /** The ledger only grew, and no record went back to PREPARED. */
  ghost predicate Advances(a: seq<Entry>, b: seq<Entry>) {
    && Continues(a, b)
    && forall i | 0 <= i < |a| :: b[i].state == EffectState.Prepared ==> a[i].state == EffectState.Prepared
  }

  lemma AdvancesKeeps(a: seq<Entry>, b: seq<Entry>, stepId: string, e: Entry)
    requires Advances(a, b)
    ensures Taken(a, stepId) ==> Taken(b, stepId)
    ensures Holds(a, e) ==> Holds(b, e)
  {
    if Taken(a, stepId) {
      var i := IndexOf(a, stepId);
      assert SameRecord(a[i], b[i]);
      assert forall j | 0 <= j < i :: SameRecord(a[j], b[j]);
      assert IndexOf(b, stepId) == i;
    }
    if i :| 0 <= i < |a| && SameRecord(a[i], e) {
      assert SameRecord(a[i], b[i]) && SameRecord(b[i], e);
    }
  }

  lemma PrimitivesAdvance(l: Ledger)
    ensures forall step :: PrepareEffect(l, step).Some? ==> Advances(l.entries, PrepareEffect(l, step).value.entries)
    ensures forall stepId, site, error ::
      MoveAt(l, stepId, site, error).Some? ==> Advances(l.entries, MoveAt(l, stepId, site, error).value.entries)
    ensures forall stepId, key ::
      CommitEffect(l, stepId, key).Some? ==> Advances(l.entries, CommitEffect(l, stepId, key).value.entries)
  {
  }

  lemma ActionAdvances(s: State, a: Action)
    ensures Advances(s.ledger.entries, Apply(s, a).ledger.entries)
  {
    hide IndexOf;
    PrimitivesAdvance(s.ledger);
    hide MoveAt, PrepareEffect, CommitEffect;
  }

  /** Registering makes the journal hold the step's record. */
  lemma RegisterHolds(l: Ledger, step: SagaStep)
    requires PrepareEffect(l, step).Some?
    ensures Holds(PrepareEffect(l, step).value.entries, NewEntry(step))
  {
    var i, b := IndexOf(l.entries, step.stepId), PrepareEffect(l, step).value.entries;
    assert SameRecord(b[i], NewEntry(step));
  }

  /** A claim succeeds only on a record nobody has taken, and takes it. */
  lemma ClaimTakes(l: Ledger, stepId: string)
    requires MoveAt(l, stepId, Site.Claim).Some?
    ensures !Taken(l.entries, stepId)
    ensures Taken(MoveAt(l, stepId, Site.Claim).value.entries, stepId)
  {
    var i := IndexOf(l.entries, stepId);
    IndexOfSameIds(l.entries, MoveAt(l, stepId, Site.Claim).value.entries, stepId);
  }

  lemma LedgerMayAdvance(s: State, l: Ledger)
    requires Exclusive(s) && Advances(s.ledger.entries, l.entries)
    ensures Exclusive(s.(ledger := l))
  {
    forall stepId, e
      ensures Taken(s.ledger.entries, stepId) ==> Taken(l.entries, stepId)
      ensures Holds(s.ledger.entries, e) ==> Holds(l.entries, e)
    {
      AdvancesKeeps(s.ledger.entries, l.entries, stepId, e);
    }
    hide Taken, Holds;
  }

  lemma WorkerMayLeave(s: State, w: nat)
    requires Exclusive(s)
    ensures Exclusive(s.(workers := Without(s.workers, w)))
  {
    hide Taken, Holds;
  }

  lemma WorkerMayRegister(s: State, w: nat)
    requires Exclusive(s) && w in s.workers && s.workers[w].Submitted?
    requires Holds(s.ledger.entries, NewEntry(s.workers[w].step))
    ensures Exclusive(s.(workers := s.workers[w := Registered(s.workers[w].step)]))
  {
    hide Taken, Holds;
  }

  /** Nobody has claimed or called an effect whose record was never taken. */
  lemma UntakenIsFree(s: State, stepId: string)
    requires Exclusive(s) && !Taken(s.ledger.entries, stepId)
    ensures !CalledFor(s, stepId)
    ensures forall v | v in s.workers && s.workers[v].Claimed? :: s.workers[v].step.stepId != stepId
  {
    hide Taken, Holds;
  }

  lemma WorkerMayClaim(s: State, w: nat)
    requires Exclusive(s) && w in s.workers && s.workers[w].Registered?
    requires Taken(s.ledger.entries, s.workers[w].step.stepId) && !CalledFor(s, s.workers[w].step.stepId)
    requires forall v | v in s.workers && s.workers[v].Claimed? ::
      s.workers[v].step.stepId != s.workers[w].step.stepId
    ensures Exclusive(s.(workers := s.workers[w := Claimed(s.workers[w].step)]))
  {
    hide Taken, Holds;
  }

  lemma WorkerMayCall(s: State, w: nat)
    requires Exclusive(s) && w in s.workers && s.workers[w].Claimed?
    ensures Exclusive(Apply(s, Call(w)))
  {
    hide Taken, Holds;
  }

  lemma RegisterKeepsExclusive(s: State, w: nat)
    requires Exclusive(s)
    ensures Exclusive(Apply(s, Register(w)))
  {
    hide Exclusive, Advances, Holds;
    if w in s.workers && s.workers[w].Submitted? {
      var l := PrepareEffect(s.ledger, s.workers[w].step);
      WorkerMayLeave(s, w);
      if l.Some? {
        ActionAdvances(s, Register(w));
        LedgerMayAdvance(s, l.value);
        RegisterHolds(s.ledger, s.workers[w].step);
        WorkerMayRegister(s.(ledger := l.value), w);
      }
    }
  }

  lemma ClaimKeepsExclusive(s: State, w: nat)
    requires Exclusive(s)
    ensures Exclusive(Apply(s, Action.Claim(w)))
  {
    hide Exclusive, Advances, Taken;
    if w in s.workers && s.workers[w].Registered? {
      var l := MoveAt(s.ledger, s.workers[w].step.stepId, Site.Claim);
      WorkerMayLeave(s, w);
      if l.Some? {
        ClaimTakes(s.ledger, s.workers[w].step.stepId);
        UntakenIsFree(s, s.workers[w].step.stepId);
        ActionAdvances(s, Action.Claim(w));
        LedgerMayAdvance(s, l.value);
        WorkerMayClaim(s.(ledger := l.value), w);
      }
    }
  }

  lemma SubmitKeepsExclusive(s: State, w: nat, step: SagaStep)
    requires Exclusive(s)
    ensures Exclusive(Apply(s, Submit(w, step)))
  {
    hide Taken, Holds;
  }

  lemma ActionKeepsExclusive(s: State, a: Action)
    requires Exclusive(s)
    ensures Exclusive(Apply(s, a))
  {
    hide Exclusive, Advances, MoveAt, PrepareEffect, CommitEffect, Without;
    match a
    case Submit(w, step) => SubmitKeepsExclusive(s, w, step);
    case Register(w) => RegisterKeepsExclusive(s, w);
    case Claim(w) => ClaimKeepsExclusive(s, w);
    case Call(w) => if w in s.workers && s.workers[w].Claimed? { WorkerMayCall(s, w); }
    case Die(w) => WorkerMayLeave(s, w);
    case _ =>
      ActionAdvances(s, a);
      LedgerMayAdvance(s, Apply(s, a).ledger);
  }

  lemma {:induction false} RunKeepsExclusive(s: State, actions: seq<Action>)
    requires Exclusive(s)
    ensures Exclusive(ApplyAll(s, actions))
    decreases |actions|
  {
    if actions != [] {
      ActionKeepsExclusive(s, actions[0]);
      RunKeepsExclusive(Apply(s, actions[0]), actions[1..]);
    }
  }

  /**
   However the workers are interleaved, the sandbox executes at most one call per step id; and the
   journal holds the action and the compensation of every call made, from before the call on.
   */
  lemma AtMostOneCallPerStep(ledger: Ledger, actions: seq<Action>)
    ensures var s := ApplyAll(State(ledger, map[], []), actions);
      && (forall j, k | 0 <= j < k < |s.calls| :: s.calls[j].stepId != s.calls[k].stepId)
      && (forall k | 0 <= k < |s.calls| :: Holds(s.ledger.entries, s.calls[k]))
  {
    RunKeepsExclusive(State(ledger, map[], []), actions);
  }

  /** The record is in the journal already when the call is made, under any continuation of the run. */
  lemma CallsAreWrittenAhead(ledger: Ledger, actions: seq<Action>, w: nat)
    ensures var s := ApplyAll(State(ledger, map[], []), actions);
      w in s.workers && s.workers[w].Claimed? ==>
        && Holds(s.ledger.entries, NewEntry(s.workers[w].step))
        && !CalledFor(s, s.workers[w].step.stepId)
  {
    RunKeepsExclusive(State(ledger, map[], []), actions);
  }

  // ── The lifecycle, under any interleaving ─────────────────────────

  lemma {:induction false} InterleavedRunKeepsWellFormed(s: State, actions: seq<Action>)
    requires WellFormedLedger(s.ledger)
    ensures WellFormedLedger(ApplyAll(s, actions).ledger)
    decreases |actions|
  {
    if actions != [] {
      ActionKeepsWellFormed(s, actions[0]);
      InterleavedRunKeepsWellFormed(Apply(s, actions[0]), actions[1..]);
    }
  }

  lemma ActionKeepsWellFormed(s: State, a: Action)
    requires WellFormedLedger(s.ledger)
    ensures WellFormedLedger(Apply(s, a).ledger)
  {
    WellFormedStable();
    hide WellFormedLedger, MoveAt, PrepareEffect, CommitEffect;
    match a
    case Commit(stepId, key) =>
      CommitKeepsWellFormed(s.ledger, stepId, key);
    case _ =>
      assert StableUnderMoves(WellFormedLedger) && StableUnderPrepare(WellFormedLedger);
      assert StableUnderRecords(WellFormedLedger);
  }

  lemma CommitKeepsWellFormed(l: Ledger, stepId: string, key: Option<string>)
    requires WellFormedLedger(l)
    ensures CommitEffect(l, stepId, key).Some? ==> WellFormedLedger(CommitEffect(l, stepId, key).value)
  {
    var i := IndexOf(l.entries, stepId);
    if CommitEffect(l, stepId, key).Some? {
      SetStateWellFormed(l, i, EffectState.Committed, l.entries[i].error);
    }
  }

  /** Lost races and stale recoveries included, records follow the graph and n of them change at most 6n times. */
  lemma InterleavedRunsFollowTheLifecycle(actions: seq<Action>)
    ensures var l := ApplyAll(State(EMPTY_LEDGER, map[], []), actions).ledger;
      && FollowsGraph(l.moves)
      && Explains(l.moves, l.entries)
      && |l.moves| <= 6 * |l.entries|
  {
    InterleavedRunKeepsWellFormed(State(EMPTY_LEDGER, map[], []), actions);
  }
}
