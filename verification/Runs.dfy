/**
 Whole runs: any sequence of client operations, crashes and restarts on one saga; and the one
 structural theorem about them, that a run changes the ledger only through the primitives of
 the journal. Every invariant of the journal follows from it by looking at the primitives alone.
 */
module Runs {
  import opened Prelude
  import opened Sagas
  import opened Journal
  import opened Environment
  import opened CoordinatorSpec

  datatype Operation =
    | StartOp(goal: string, tenantId: string, now: real)
    | ExecuteOp(steps: seq<SagaStep>)
    | ResumeOp
    | RejectOp
    | RestartOp

  function Perform<W>(env: Env<W>, s: Sys<W>, op: Operation): Turn<W> {
    match op
    case StartOp(goal, tenantId, now) => Start(s, goal, tenantId, now)
    case ExecuteOp(steps) => ExecuteSaga(env, s, steps)
    case ResumeOp => Resume(env, s)
    case RejectOp => Reject(env, s)
    case RestartOp => Recover(env, s)
  }

  /** A crash loses the memory of the process and nothing else. */
  function AfterTurn<W>(t: Turn<W>): Sys<W> {
    if t.end.Crashed? then t.s.(saga := None) else t.s
  }

  function Run<W>(env: Env<W>, s: Sys<W>, ops: seq<Operation>): Sys<W>
    decreases |ops|
  {
    if ops == [] then s else Run(env, AfterTurn(Perform(env, s, ops[0])), ops[1..])
  }

  // ── Invariants of the journal ─────────────────────────────────────

  /** The record of this step exists and carries the step's key. */
  ghost predicate Registered(l: Ledger, step: SagaStep) {
    var i := IndexOf(l.entries, step.stepId);
    i < |l.entries| && l.entries[i].idempotencyKey == step.idempotencyKey
  }

  ghost predicate StableUnderRecords(inv: Ledger -> bool) {
    && (forall l, status :: inv(l) ==> inv(WriteStatus(l, status)))
    && (forall l: Ledger, m :: inv(l) ==> inv(l.(metadata := m)))
    && (forall l, stepName, error :: inv(l) ==> inv(PushDeadLetter(l, stepName, error)))
  }

  ghost predicate StableUnderMoves(inv: Ledger -> bool) {
    forall l, stepId, site, error ::
      inv(l) && MoveAt(l, stepId, site, error).Some? ==> inv(MoveAt(l, stepId, site, error).value)
  }

  ghost predicate StableUnderPrepare(inv: Ledger -> bool) {
    forall l, step :: inv(l) && PrepareEffect(l, step).Some? ==> inv(PrepareEffect(l, step).value)
  }

  /** The coordinator commits a step under its own key, and only while that key is unpublished. */
  ghost predicate StableUnderCommit(inv: Ledger -> bool) {
    forall l, step: SagaStep ::
      inv(l) && Registered(l, step) && !AlreadyCommitted(l, step.idempotencyKey)
      && CommitEffect(l, step.stepId, step.idempotencyKey).Some?
      ==> inv(CommitEffect(l, step.stepId, step.idempotencyKey).value)
  }

  ghost predicate Stable(inv: Ledger -> bool) {
    StableUnderRecords(inv) && StableUnderMoves(inv) && StableUnderPrepare(inv) && StableUnderCommit(inv)
  }

  // ── Rollback ──────────────────────────────────────────────────────

  lemma CompensateStepKeeps<W>(env: Env<W>, s: Sys<W>, step: SagaStep, inv: Ledger -> bool)
    requires Stable(inv) && inv(s.ledger)
    ensures inv(CompensateStep(env, s, step).s.ledger)
  {
    var marked := MoveAt(s.ledger, step.stepId, BeginCompensation);
    if marked.Some? {
      CompensationCallKeeps(env, s.(ledger := marked.value), step, inv);
    } else {
      CompensationCallKeeps(env, s, step, inv);
    }
    HandleCompensationFailureKeeps(s, step, inv);
  }

  lemma CompensationCallKeeps<W>(env: Env<W>, s: Sys<W>, step: SagaStep, inv: Ledger -> bool)
    requires Stable(inv) && inv(s.ledger)
    ensures inv(CompensationCall(env, s, step).s.ledger)
  {
    var a := ExecuteCompensation(env, Tick(s), step.stepId, step.compensation);
    HandleCompensationFailureKeeps(a.s, step, inv);
    HandleCompensationFailureKeeps(Tick(a.s), step, inv);
  }

  lemma HandleCompensationFailureKeeps<W>(s: Sys<W>, step: SagaStep, inv: Ledger -> bool)
    requires Stable(inv) && inv(s.ledger)
    ensures inv(HandleCompensationFailure(s, step).s.ledger)
  {
    var l := WriteStatus(s.ledger, SagaStatus.CompensationFailed);
    assert inv(l);
    assert inv(MoveAt(l, step.stepId, FailCompensation, UNDO_FAILED).GetOr(l));
  }

  lemma {:induction false} CompensateAllKeeps<W>(env: Env<W>, s: Sys<W>, completed: seq<SagaStep>, inv: Ledger -> bool)
    requires Stable(inv) && inv(s.ledger)
    ensures inv(CompensateAll(env, s, completed).s.ledger)
    decreases |completed|
  {
    if completed != [] {
      var t := CompensateStep(env, s, completed[|completed| - 1]);
      CompensateStepKeeps(env, s, completed[|completed| - 1], inv);
      if t.end.Proceed? {
        CompensateAllKeeps(env, t.s, completed[..|completed| - 1], inv);
      }
    }
  }

  lemma AbandonKeeps<W>(env: Env<W>, s: Sys<W>, inv: Ledger -> bool)
    requires Stable(inv) && inv(s.ledger)
    ensures inv(Abandon(env, s).s.ledger)
  {
    CompensateAllKeeps(env, WithStatus(s, SagaStatus.Compensating), Completed(s), inv);
  }

  lemma AbandonAmbiguousKeeps<W>(env: Env<W>, s: Sys<W>, step: SagaStep, inv: Ledger -> bool)
    requires Stable(inv) && inv(s.ledger)
    ensures inv(AbandonAmbiguous(env, s, step).s.ledger)
  {
    AbandonKeeps(env, s, inv);
    var l := Abandon(env, s).s.ledger;
    DeadLetterRecoveryKeeps(MoveAt(l, step.stepId, RecordRaised, CALL_RAISED).GetOr(l), step.stepName, CALL_RAISED, inv);
  }

  lemma DeadLetterRecoveryKeeps(l: Ledger, stepName: string, error: string, inv: Ledger -> bool)
    requires Stable(inv) && inv(l)
    ensures inv(DeadLetterRecovery(l, stepName, error))
  {
    assert inv(WriteStatus(l, SagaStatus.CompensationFailed));
  }

  // ── Forward execution ─────────────────────────────────────────────

  lemma RecordStepKeeps<W>(env: Env<W>, s: Sys<W>, step: SagaStep, inv: Ledger -> bool)
    requires s.saga.Some?
    requires Stable(inv) && inv(s.ledger)
    requires Registered(s.ledger, step) && !AlreadyCommitted(s.ledger, step.idempotencyKey)
    ensures inv(RecordStep(env, s, step).s.ledger)
  {
    var applied := MoveAt(s.ledger, step.stepId, RecordApplied);
    AbandonAmbiguousKeeps(env, s, step, inv);
    if applied.Some? {
      MoveKeepsRegistered(s.ledger, step.stepId, RecordApplied, "", step);
      var s2 := AppendCompleted(Tick(s.(ledger := applied.value)), step);
      AbandonKeeps(env, s2, inv);
      assert inv(s2.ledger);
    }
  }

  lemma MoveKeepsRegistered(l: Ledger, stepId: string, site: Site, error: string, step: SagaStep)
    requires Registered(l, step) && MoveAt(l, stepId, site, error).Some?
    ensures Registered(MoveAt(l, stepId, site, error).value, step)
    ensures MoveAt(l, stepId, site, error).value.published == l.published
  {
    SetStateIndexOf(l, IndexOf(l.entries, stepId), Target(site), error, step.stepId);
  }

  lemma SetStateIndexOf(l: Ledger, i: nat, to: EffectState, error: string, stepId: string)
    requires i < |l.entries|
    ensures IndexOf(SetState(l, i, to, error).entries, stepId) == IndexOf(l.entries, stepId)
  {
    IndexOfSameIds(l.entries, SetState(l, i, to, error).entries, stepId);
  }

  lemma PrepareRegisters(l: Ledger, step: SagaStep)
    requires PrepareEffect(l, step).Some?
    ensures Registered(PrepareEffect(l, step).value, step)
    ensures PrepareEffect(l, step).value.published == l.published
  {
    var l' := PrepareEffect(l, step).value;
    if IndexOf(l.entries, step.stepId) == |l.entries| {
      assert l'.entries[|l.entries|].stepId == step.stepId;
      assert IndexOf(l'.entries, step.stepId) == |l.entries|;
    }
  }

  lemma CallStepKeeps<W>(env: Env<W>, s: Sys<W>, step: SagaStep, inv: Ledger -> bool)
    requires s.saga.Some?
    requires Stable(inv) && inv(s.ledger)
    requires Registered(s.ledger, step) && !AlreadyCommitted(s.ledger, step.idempotencyKey)
    ensures inv(CallStep(env, s, step).s.ledger)
  {
    if !CrashesHere(env, s) {
      var a := Execute(env, Tick(s), step.stepId, step.action);
      assert a.s.ledger == s.ledger;
      if a.reply.Raised? {
        AbandonAmbiguousKeeps(env, a.s, step, inv);
      } else if CrashesHere(env, a.s) {
      } else if a.reply.Refused? {
        var aborted := MoveAt(a.s.ledger, step.stepId, RejectCall, CALL_FAILED);
        if aborted.None? {
          AbandonAmbiguousKeeps(env, Tick(a.s), step, inv);
        } else {
          AbandonKeeps(env, Tick(a.s).(ledger := aborted.value), inv);
        }
      } else {
        RecordStepKeeps(env, Tick(a.s), step, inv);
      }
    }
  }

  lemma PrepareStepKeeps<W>(env: Env<W>, s: Sys<W>, step: SagaStep, inv: Ledger -> bool)
    requires s.saga.Some?
    requires Stable(inv) && inv(s.ledger) && !AlreadyCommitted(s.ledger, step.idempotencyKey)
    ensures inv(PrepareStep(env, s, step).s.ledger)
  {
    hide Abandon, CallStep, StableUnderRecords, StableUnderCommit, Registered, IndexOf;
    AbandonKeeps(env, s, inv);
    var prepared := PrepareEffect(s.ledger, step);
    if prepared.Some? {
      PrepareRegisters(s.ledger, step);
      var s1 := s.(ledger := prepared.value);
      AbandonKeeps(env, Tick(s1), inv);
      var claimed := MoveAt(s1.ledger, step.stepId, Claim);
      if claimed.Some? {
        MoveKeepsRegistered(s1.ledger, step.stepId, Claim, "", step);
        CallStepKeeps(env, Tick(s1).(ledger := claimed.value), step, inv);
      }
    }
  }

  lemma PauseKeeps<W>(s: Sys<W>, steps: seq<SagaStep>, inv: Ledger -> bool)
    requires s.saga.Some? && steps != []
    requires Stable(inv) && inv(s.ledger)
    ensures inv(Pause(s, steps).s.ledger)
  {
    assert inv(WriteStatus(s.ledger, SagaStatus.AwaitingApproval));
  }

  lemma {:induction false} ExecuteStepsKeeps<W>(env: Env<W>, s: Sys<W>, steps: seq<SagaStep>, inv: Ledger -> bool)
    requires s.saga.Some?
    requires Stable(inv) && inv(s.ledger)
    ensures inv(ExecuteSteps(env, s, steps).s.ledger)
    decreases |steps|
  {
    if steps == [] {
    } else if AlreadyCommitted(s.ledger, steps[0].idempotencyKey) {
      ExecuteStepsKeeps(env, s, steps[1..], inv);
    } else {
      AbandonKeeps(env, Tick(s), inv);
      PauseKeeps(Tick(s), steps, inv);
      PrepareStepKeeps(env, Tick(s), steps[0], inv);
      var t := AttemptStep(env, s, steps);
      if t.end.Proceed? {
        ExecuteStepsKeeps(env, t.s, steps[1..], inv);
      }
    }
  }

  // ── Recovery ──────────────────────────────────────────────────────

  lemma RecoveryCompensationKeeps<W>(env: Env<W>, s: Sys<W>, e: Entry, inv: Ledger -> bool)
    requires Stable(inv) && inv(s.ledger)
    ensures inv(RecoveryCompensation(env, s, e).s.ledger)
  {
    var a := ExecuteCompensation(env, Tick(s), e.stepId, e.compensation);
    FailRecoveryKeeps(a.s, e, UNDO_FAILED, inv);
    FailRecoveryKeeps(Tick(a.s), e, UNDO_FAILED, inv);
  }

  lemma FailRecoveryKeeps<W>(s: Sys<W>, e: Entry, error: string, inv: Ledger -> bool)
    requires Stable(inv) && inv(s.ledger)
    ensures inv(FailRecoveryCompensation(s, e, error).s.ledger)
  {
    var moved := MoveAt(s.ledger, e.stepId, FailCompensation, error);
    if moved.Some? {
      DeadLetterRecoveryKeeps(moved.value, e.stepName, error, inv);
    }
  }

  lemma QuarantineForwardKeeps<W>(s: Sys<W>, e: Entry, error: string, inv: Ledger -> bool)
    requires Stable(inv) && inv(s.ledger)
    ensures inv(QuarantineForward(s, e, error).s.ledger)
  {
    var moved := MoveAt(s.ledger, e.stepId, MarkAmbiguous, error);
    DeadLetterRecoveryKeeps(moved.GetOr(s.ledger), e.stepName, error, inv);
    DeadLetterRecoveryKeeps(s.ledger, e.stepName, error, inv);
  }

  lemma RecoverEffectKeeps<W>(env: Env<W>, s: Sys<W>, e: Entry, inv: Ledger -> bool)
    requires Stable(inv) && inv(s.ledger)
    ensures inv(RecoverEffect(env, s, e).s.ledger)
  {
    match e.state
    case Aborted | Compensated =>
    case Prepared =>
    case Executing | Ambiguous =>
      RecoverForwardKeeps(env, s, e, inv);
    case Compensating =>
      RecoverUndoKeeps(env, s, e, inv);
    case CompensationFailed =>
      DeadLetterRecoveryKeeps(s.ledger, e.stepName, if e.error != "" then e.error else PRIOR_FAILURE, inv);
    case Applied | Committed =>
      BeginRecoveryKeeps(env, s, e, inv);
  }

  lemma RecoverForwardKeeps<W>(env: Env<W>, s: Sys<W>, e: Entry, inv: Ledger -> bool)
    requires Stable(inv) && inv(s.ledger)
    ensures inv(RecoverForward(env, s, e).s.ledger)
  {
    var r := ResolveForwardEffect(env, s, e);
    assert r.s.ledger == s.ledger;
    match r.verdict
    case SaysNotApplied =>
    case SaysApplied =>
      var t := RecoveryMove(r.s, e.stepId, ConfirmApplied);
      if t.end.Proceed? {
        BeginRecoveryKeeps(env, t.s, e, inv);
      }
    case SaysUnknown =>
      QuarantineForwardKeeps(r.s, e, OUTCOME_UNKNOWN, inv);
    case ResolverRaised =>
      QuarantineForwardKeeps(r.s, e, RESOLVER_FAILED, inv);
  }

  lemma RecoverUndoKeeps<W>(env: Env<W>, s: Sys<W>, e: Entry, inv: Ledger -> bool)
    requires Stable(inv) && inv(s.ledger)
    ensures inv(RecoverUndo(env, s, e).s.ledger)
  {
    var r := ResolveCompensation(env, s, e);
    assert r.s.ledger == s.ledger;
    match r.verdict
    case SaysApplied =>
    case SaysNotApplied =>
      RecoveryCompensationKeeps(env, r.s, e, inv);
    case SaysUnknown =>
      FailRecoveryKeeps(r.s, e, UNDO_UNKNOWN, inv);
    case ResolverRaised =>
      FailRecoveryKeeps(r.s, e, UNDO_RESOLVER_FAILED, inv);
  }

  lemma BeginRecoveryKeeps<W>(env: Env<W>, s: Sys<W>, e: Entry, inv: Ledger -> bool)
    requires Stable(inv) && inv(s.ledger)
    ensures inv(BeginRecoveryCompensation(env, s, e).s.ledger)
  {
    RecoveryCompensationKeeps(env, RecoveryMove(s, e.stepId, BeginCompensation).s, e, inv);
  }

  lemma {:induction false} RecoverEffectsKeeps<W>(env: Env<W>, s: Sys<W>, effects: seq<Entry>, inv: Ledger -> bool)
    requires Stable(inv) && inv(s.ledger)
    ensures inv(RecoverEffects(env, s, effects).s.ledger)
    decreases |effects|
  {
    if effects != [] {
      RecoverEffectKeeps(env, s, effects[|effects| - 1], inv);
      var t := RecoverEffect(env, s, effects[|effects| - 1]);
      if t.end.Proceed? {
        RecoverEffectsKeeps(env, t.s, effects[..|effects| - 1], inv);
      }
    }
  }

  // ── Every operation, every run ────────────────────────────────────

  lemma PerformKeeps<W>(env: Env<W>, s: Sys<W>, op: Operation, inv: Ledger -> bool)
    requires Stable(inv) && inv(s.ledger)
    ensures inv(Perform(env, s, op).s.ledger)
  {
    match op
    case StartOp(_, _, _) =>
      assert inv(WriteStatus(s.ledger, SagaStatus.Running));
    case ExecuteOp(steps) =>
      if s.saga.Some? { ExecuteStepsKeeps(env, s, steps, inv); }
    case ResumeOp =>
      if !Resume(env, s).end.Denied? || Resume(env, s).s != s {
        var pending := s.saga.value.pendingSteps;
        var saga := s.saga.value.(pendingSteps := [], status := SagaStatus.Running);
        var l := WriteStatus(s.ledger, SagaStatus.Running);
        assert inv(l);
        var s' := s.(saga := Some(saga), ledger := l.(metadata := l.metadata.(pendingSteps := [])));
        ExecuteStepsKeeps(env, s', pending[0 := pending[0].(approved := true)], inv);
      }
    case RejectOp =>
      if s.saga.Some? {
        var l := WriteStatus(s.ledger, SagaStatus.Compensating);
        assert inv(l);
        var s' := s.(saga := Some(s.saga.value.(pendingSteps := [])),
                     ledger := l.(metadata := l.metadata.(pendingSteps := [])));
        CompensateAllKeeps(env, WithStatus(s', SagaStatus.Compensating), s'.saga.value.completedSteps, inv);
      }
    case RestartOp =>
      RecoverEffectsKeeps(env, s.(saga := None), s.ledger.entries, inv);
  }

  /** An invariant of the journal's primitives holds at every stop of every run. */
  lemma {:induction false} RunKeeps<W>(env: Env<W>, s: Sys<W>, ops: seq<Operation>, inv: Ledger -> bool)
    requires Stable(inv) && inv(s.ledger)
    ensures inv(Run(env, s, ops).ledger)
    decreases |ops|
  {
    if ops != [] {
      PerformKeeps(env, s, ops[0], inv);
      RunKeeps(env, AfterTurn(Perform(env, s, ops[0])), ops[1..], inv);
    }
  }
}
