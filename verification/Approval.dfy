/**
 A restart while a saga awaits approval cannot be told apart from no restart: approving or
 rejecting afterwards reaches the same world, journal and durable status.
 */
module Approval {
  import opened Prelude
  import opened Sagas
  import opened Journal
  import opened StepCodec
  import opened Environment
  import opened CoordinatorSpec
  import opened ForwardShape
  import opened CrashRecovery
  import opened Quarantine

  // ── Sagas that differ in what rollback never reads ────────────────

  /** The steps agree on everything the coordinator reads of a completed step. */
  ghost predicate AlikeSteps(a: SagaStep, b: SagaStep) {
    && a.stepId == b.stepId && a.stepName == b.stepName && a.action == b.action
    && a.compensation == b.compensation && a.idempotencyKey == b.idempotencyKey
  }

  ghost predicate AlikeLists(a: seq<SagaStep>, b: seq<SagaStep>) {
    |a| == |b| && forall i | 0 <= i < |a| :: AlikeSteps(a[i], b[i])
  }

  /** Same durable state, world, clock and history; in memory only the completed lists may differ, and they are alike. */
  ghost predicate Alike<W>(s: Sys<W>, s': Sys<W>) {
    && s' == s.(saga := s'.saga)
    && (s.saga.Some? <==> s'.saga.Some?)
    && (s.saga.Some? ==>
          && s'.saga.value == s.saga.value.(completedSteps := s'.saga.value.completedSteps)
          && AlikeLists(s.saga.value.completedSteps, s'.saga.value.completedSteps))
  }

  ghost predicate AlikeTurns<W>(t: Turn<W>, t': Turn<W>) {
    t.end == t'.end && Alike(t.s, t'.s)
  }

  // ── Every operation treats alike states alike ─────────────────────

  lemma CompensationCallAlike<W>(env: Env<W>, s: Sys<W>, s': Sys<W>, step: SagaStep, step': SagaStep)
    requires Alike(s, s') && AlikeSteps(step, step')
    ensures AlikeTurns(CompensationCall(env, s, step), CompensationCall(env, s', step'))
  {
    var a := ExecuteCompensation(env, Tick(s), step.stepId, step.compensation);
    var b := ExecuteCompensation(env, Tick(s'), step.stepId, step.compensation);
    UndoAlike(env, Tick(s), Tick(s'), step);
    HandleAlike(a.s, b.s, step, step');
    HandleAlike(Tick(a.s), Tick(b.s), step, step');
    hide AlikeLists, MoveAt, ExecuteCompensation, HandleCompensationFailure;
  }

  lemma UndoAlike<W>(env: Env<W>, s: Sys<W>, s': Sys<W>, step: SagaStep)
    requires Alike(s, s')
    ensures var a := ExecuteCompensation(env, s, step.stepId, step.compensation);
      var b := ExecuteCompensation(env, s', step.stepId, step.compensation);
      a.reply == b.reply && Alike(a.s, b.s) && Alike(Tick(a.s), Tick(b.s)) && a.s.ledger == s.ledger
  {
    hide AlikeLists;
  }

  lemma HandleAlike<W>(s: Sys<W>, s': Sys<W>, step: SagaStep, step': SagaStep)
    requires Alike(s, s') && AlikeSteps(step, step')
    ensures AlikeTurns(HandleCompensationFailure(s, step), HandleCompensationFailure(s', step'))
  {
    hide AlikeLists, MoveAt;
  }

  lemma CallAlike<W>(env: Env<W>, s: Sys<W>, s': Sys<W>, step: SagaStep)
    requires Alike(s, s')
    ensures var a := Execute(env, s, step.stepId, step.action);
      var b := Execute(env, s', step.stepId, step.action);
      && a.reply == b.reply && Alike(a.s, b.s) && Alike(Tick(a.s), Tick(b.s))
      && a.s.saga == s.saga && b.s.saga == s'.saga && a.s.ledger == s.ledger
  {
    hide AlikeLists;
  }

  lemma CompensateStepAlike<W>(env: Env<W>, s: Sys<W>, s': Sys<W>, step: SagaStep, step': SagaStep)
    requires Alike(s, s') && AlikeSteps(step, step')
    ensures AlikeTurns(CompensateStep(env, s, step), CompensateStep(env, s', step'))
  {
    hide AlikeLists, MoveAt, CompensationCall;
    var marked := MoveAt(s.ledger, step.stepId, BeginCompensation);
    if marked.Some? {
      CompensationCallAlike(env, s.(ledger := marked.value), s'.(ledger := marked.value), step, step');
    } else {
      CompensationCallAlike(env, s, s', step, step');
    }
  }

  lemma {:induction false} CompensateAllAlike<W>(
    env: Env<W>, s: Sys<W>, s': Sys<W>, done: seq<SagaStep>, done': seq<SagaStep>)
    requires Alike(s, s') && AlikeLists(done, done')
    ensures AlikeTurns(CompensateAll(env, s, done), CompensateAll(env, s', done'))
    decreases |done|
  {
    if done != [] {
      hide CompensateStep, Alike;
      var k := |done| - 1;
      CompensateStepAlike(env, s, s', done[k], done'[k]);
      var t := CompensateStep(env, s, done[k]);
      if t.end == Proceed {
        CompensateAllAlike(env, t.s, CompensateStep(env, s', done'[k]).s, done[..k], done'[..k]);
      }
    }
  }

  lemma AbandonAlike<W>(env: Env<W>, s: Sys<W>, s': Sys<W>)
    requires Alike(s, s')
    ensures AlikeTurns(Abandon(env, s), Abandon(env, s'))
  {
    hide CompensateAll;
    CompensateAllAlike(env, WithStatus(s, SagaStatus.Compensating), WithStatus(s', SagaStatus.Compensating),
                       Completed(s), Completed(s'));
  }

  lemma AbandonAmbiguousAlike<W>(env: Env<W>, s: Sys<W>, s': Sys<W>, step: SagaStep)
    requires Alike(s, s')
    ensures AlikeTurns(AbandonAmbiguous(env, s, step), AbandonAmbiguous(env, s', step))
  {
    AbandonAlike(env, s, s');
    hide Abandon, AlikeLists, MoveAt, DeadLetterRecovery;
  }

  lemma AppendAlike<W>(s: Sys<W>, s': Sys<W>, step: SagaStep)
    requires Alike(s, s') && s.saga.Some?
    ensures Alike(AppendCompleted(s, step), AppendCompleted(s', step))
  {
  }

  lemma RecordStepAlike<W>(env: Env<W>, s: Sys<W>, s': Sys<W>, step: SagaStep)
    requires Alike(s, s') && s.saga.Some?
    ensures AlikeTurns(RecordStep(env, s, step), RecordStep(env, s', step))
  {
    AbandonAmbiguousAlike(env, s, s', step);
    var applied := MoveAt(s.ledger, step.stepId, RecordApplied);
    hide AlikeLists, MoveAt, CommitEffect, Abandon, AbandonAmbiguous, AppendCompleted;
    if applied.Some? {
      var a, b := Tick(s.(ledger := applied.value)), Tick(s'.(ledger := applied.value));
      AppendAlike(a, b, step);
      AppendKeepsLedger(a, step);
      AppendKeepsLedger(b, step);
      AbandonAlike(env, AppendCompleted(a, step), AppendCompleted(b, step));
    }
  }

  lemma CallStepAlike<W>(env: Env<W>, s: Sys<W>, s': Sys<W>, step: SagaStep)
    requires Alike(s, s') && s.saga.Some?
    ensures AlikeTurns(CallStep(env, s, step), CallStep(env, s', step))
  {
    hide AlikeLists, Execute, MoveAt, RecordStep, Abandon, AbandonAmbiguous;
    var a, b := Execute(env, Tick(s), step.stepId, step.action), Execute(env, Tick(s'), step.stepId, step.action);
    CallAlike(env, Tick(s), Tick(s'), step);
    AbandonAmbiguousAlike(env, a.s, b.s, step);
    AbandonAmbiguousAlike(env, Tick(a.s), Tick(b.s), step);
    RecordStepAlike(env, Tick(a.s), Tick(b.s), step);
    var aborted := MoveAt(a.s.ledger, step.stepId, RejectCall, CALL_FAILED);
    if aborted.Some? {
      AbandonAlike(env, Tick(a.s).(ledger := aborted.value), Tick(b.s).(ledger := aborted.value));
    }
  }

  lemma PrepareStepAlike<W>(env: Env<W>, s: Sys<W>, s': Sys<W>, step: SagaStep)
    requires Alike(s, s') && s.saga.Some?
    ensures AlikeTurns(PrepareStep(env, s, step), PrepareStep(env, s', step))
  {
    hide AlikeLists, PrepareEffect, MoveAt, CallStep, Abandon;
    AbandonAlike(env, s, s');
    var prepared := PrepareEffect(s.ledger, step);
    if prepared.Some? {
      var a, b := Tick(s.(ledger := prepared.value)), Tick(s'.(ledger := prepared.value));
      AbandonAlike(env, a, b);
      var claimed := MoveAt(prepared.value, step.stepId, Claim);
      if claimed.Some? {
        CallStepAlike(env, a.(ledger := claimed.value), b.(ledger := claimed.value), step);
      }
    }
  }

  lemma AttemptStepAlike<W>(env: Env<W>, s: Sys<W>, s': Sys<W>, steps: seq<SagaStep>)
    requires Alike(s, s') && s.saga.Some? && steps != []
    ensures AlikeTurns(AttemptStep(env, s, steps), AttemptStep(env, s', steps))
  {
    hide AlikeLists, PrepareStep, Abandon, SerializeSteps;
    AbandonAlike(env, Tick(s), Tick(s'));
    PrepareStepAlike(env, Tick(s), Tick(s'), steps[0]);
  }

  lemma {:induction false} ExecuteStepsAlike<W>(env: Env<W>, s: Sys<W>, s': Sys<W>, steps: seq<SagaStep>)
    requires Alike(s, s') && s.saga.Some?
    ensures AlikeTurns(ExecuteSteps(env, s, steps), ExecuteSteps(env, s', steps))
    decreases |steps|
  {
    hide AlikeLists, AttemptStep;
    if steps == [] {
    } else if AlreadyCommitted(s.ledger, steps[0].idempotencyKey) {
      ExecuteStepsAlike(env, s, s', steps[1..]);
    } else {
      AttemptStepAlike(env, s, s', steps);
      var t := AttemptStep(env, s, steps);
      if t.end == Proceed {
        ExecuteStepsAlike(env, t.s, AttemptStep(env, s', steps).s, steps[1..]);
      }
    }
  }

  lemma ResumeAlike<W>(env: Env<W>, s: Sys<W>, s': Sys<W>)
    requires Alike(s, s')
    ensures AlikeTurns(Resume(env, s), Resume(env, s'))
  {
    hide AlikeLists, ExecuteSteps;
    if s.saga.Some? {
      var l := WriteStatus(s.ledger, SagaStatus.Running);
      var l' := l.(metadata := l.metadata.(pendingSteps := []));
      var a := s.(saga := Some(s.saga.value.(pendingSteps := [], status := SagaStatus.Running)), ledger := l');
      var b := s'.(saga := Some(s'.saga.value.(pendingSteps := [], status := SagaStatus.Running)), ledger := l');
      var pending := s.saga.value.pendingSteps;
      if pending != [] {
        ExecuteStepsAlike(env, a, b, pending[0 := pending[0].(approved := true)]);
      }
    }
  }

  lemma RejectAlike<W>(env: Env<W>, s: Sys<W>, s': Sys<W>)
    requires Alike(s, s')
    ensures AlikeTurns(Reject(env, s), Reject(env, s'))
  {
    hide AlikeLists, CompensateAll;
    if s.saga.Some? {
      var l := WriteStatus(s.ledger, SagaStatus.Compensating);
      var l' := WriteStatus(l.(metadata := l.metadata.(pendingSteps := [])), SagaStatus.Compensating);
      var a := s.(saga := Some(s.saga.value.(pendingSteps := [])), ledger := l');
      var b := s'.(saga := Some(s'.saga.value.(pendingSteps := [])), ledger := l');
      CompensateAllAlike(env, a, b, a.saga.value.completedSteps, b.saga.value.completedSteps);
    }
  }

  // ── The restart ───────────────────────────────────────────────────

  /** A pause as the ledger records it: nothing in the process's memory is worth more than the record. */
  ghost predicate PausedOnRecord<W>(s: Sys<W>) {
    && Tidy(s)
    && s.saga.value.status == SagaStatus.AwaitingApproval && s.saga.value.pendingSteps != []
    && s.ledger.status == Some(SagaStatus.AwaitingApproval)
    && s.ledger.metadata == Metadata(Some(s.saga.value.tenantId), Some(s.saga.value.goal),
                                     SerializeSteps(s.saga.value.pendingSteps), Some(s.saga.value.startTime))
  }

  /** Recovery rebuilds the transaction record from the ledger alone. */
  lemma RestartRebuildsMemory<W>(env: Env<W>, s: Sys<W>)
    requires PausedOnRecord(s)
    ensures var t := Recover(env, s); t.end == Paused && Alike(s, t.s)
  {
    var pending := s.saga.value.pendingSteps;
    StepsRoundTrip(pending);
    assert SerializeSteps(pending) != [];
    CommittedStepsName(s.ledger.entries);
    hide SerializeSteps, DeserializeSteps, CommittedSteps;
    var t := Recover(env, s);
    assert t.s.saga.value.pendingSteps == pending;
    assert t.s.saga.value.completedSteps == CommittedSteps(s.ledger.entries);
    assert AlikeLists(s.saga.value.completedSteps, t.s.saga.value.completedSteps);
  }

  /**
   Approving or rejecting after a restart ends the same way as without it: same world, same
   ledger, same history, same answer, in every environment.
   */
  lemma RestartIsInvisible<W>(env: Env<W>, s: Sys<W>)
    requires PausedOnRecord(s)
    ensures var restarted := Recover(env, s).s;
      && AlikeTurns(Resume(env, s), Resume(env, restarted))
      && AlikeTurns(Reject(env, s), Reject(env, restarted))
  {
    hide PausedOnRecord, Recover, Resume, Reject, Alike;
    RestartRebuildsMemory(env, s);
    ResumeAlike(env, s, Recover(env, s).s);
    RejectAlike(env, s, Recover(env, s).s);
  }

  // ── Pauses are on record ──────────────────────────────────────────

  /** The ledger's metadata names the transaction's owner. */
  ghost predicate Owned<W>(s: Sys<W>) {
    && s.saga.Some?
    && s.ledger.metadata.tenantId == Some(s.saga.value.tenantId)
    && s.ledger.metadata.goal == Some(s.saga.value.goal)
  }

  ghost predicate SameOwner<W>(s: Sys<W>, s': Sys<W>) {
    && s.saga.Some? && s'.saga.Some?
    && s'.saga.value.tenantId == s.saga.value.tenantId && s'.saga.value.goal == s.saga.value.goal
    && s'.ledger.metadata == s.ledger.metadata
  }

  lemma RecordStepOwner<W>(env: Env<W>, s: Sys<W>, step: SagaStep)
    requires s.saga.Some?
    ensures var t := RecordStep(env, s, step); t.end == Proceed ==> SameOwner(s, t.s)
  {
    hide IndexOf, Abandon;
    AbandonNeverPauses(env, s);
    var applied := MoveAt(s.ledger, step.stepId, RecordApplied);
    if applied.Some? {
      AbandonNeverPauses(env, AppendCompleted(Tick(s.(ledger := applied.value)), step));
    }
  }

  lemma CallStepOwner<W>(env: Env<W>, s: Sys<W>, step: SagaStep)
    requires s.saga.Some?
    ensures var t := CallStep(env, s, step); t.end == Proceed ==> SameOwner(s, t.s)
  {
    var a := Execute(env, Tick(s), step.stepId, step.action);
    assert a.s.saga == s.saga && a.s.ledger == s.ledger;
    hide Execute, Abandon, MoveAt, RecordStep;
    RecordStepOwner(env, Tick(a.s), step);
    var aborted := MoveAt(a.s.ledger, step.stepId, RejectCall, CALL_FAILED);
    if aborted.Some? {
      AbandonNeverPauses(env, Tick(a.s).(ledger := aborted.value));
    }
  }

  lemma PrepareStepOwner<W>(env: Env<W>, s: Sys<W>, step: SagaStep)
    requires s.saga.Some?
    ensures var t := PrepareStep(env, s, step); t.end == Proceed ==> SameOwner(s, t.s)
  {
    hide IndexOf, Abandon, CallStep;
    AbandonNeverPauses(env, s);
    var prepared := PrepareEffect(s.ledger, step);
    if prepared.Some? {
      var s1 := Tick(s.(ledger := prepared.value));
      AbandonNeverPauses(env, s1);
      var claimed := MoveAt(prepared.value, step.stepId, Claim);
      if claimed.Some? {
        CallStepOwner(env, s1.(ledger := claimed.value), step);
      }
    }
  }

  lemma {:induction false} PausesAreOnRecord<W>(env: Env<W>, s: Sys<W>, steps: seq<SagaStep>)
    requires Tidy(s) && Owned(s)
    ensures s.saga.Some?
    ensures var t := ExecuteSteps(env, s, steps); t.end == Paused ==> PausedOnRecord(t.s) && Owned(t.s)
    decreases |steps|
  {
    hide Tidy, PrepareStep, Abandon, SerializeSteps;
    if steps == [] {
    } else if AlreadyCommitted(s.ledger, steps[0].idempotencyKey) {
      PausesAreOnRecord(env, s, steps[1..]);
    } else {
      AbandonNeverPauses(env, Tick(s));
      PrepareNeverPauses(env, Tick(s), steps[0]);
      PrepareStepOwner(env, Tick(s), steps[0]);
      AttemptStepSafe(env, s, steps);
      var t := AttemptStep(env, s, steps);
      if t.end == Proceed {
        PausesAreOnRecord(env, t.s, steps[1..]);
      }
    }
  }

  /** Approving leads to a result or to the next pause, which is on record again. */
  lemma ResumedPausesAreOnRecord<W>(env: Env<W>, s: Sys<W>)
    requires PausedOnRecord(s)
    ensures var t := Resume(env, s); t.end == Paused ==> PausedOnRecord(t.s)
  {
    var l := WriteStatus(s.ledger, SagaStatus.Running);
    var s' := s.(saga := Some(s.saga.value.(pendingSteps := [], status := SagaStatus.Running)),
                 ledger := l.(metadata := l.metadata.(pendingSteps := [])));
    var pending := s.saga.value.pendingSteps;
    assert Tidy(s') by { hide DistinctIds; }
    hide Tidy, ExecuteSteps;
    PausesAreOnRecord(env, s', pending[0 := pending[0].(approved := true)]);
  }

  /** In any environment, a fresh saga that pauses is on record, so restarting it is invisible. */
  lemma FreshPauseSurvivesRestart<W(!new)>(
    env: Env<W>, s: Sys<W>, goal: string, tenantId: string, now: real, steps: seq<SagaStep>)
    requires Fresh(s)
    ensures var started := Start(s, goal, tenantId, now).s;
      var t := ExecuteSaga(env, started, steps);
      t.end == Paused ==>
        var restarted := Recover(env, t.s).s;
        && AlikeTurns(Resume(env, t.s), Resume(env, restarted))
        && AlikeTurns(Reject(env, t.s), Reject(env, restarted))
  {
    var started := Start(s, goal, tenantId, now).s;
    assert Tidy(started) && Owned(started);
    hide Tidy, ExecuteSteps, Recover, Resume, Reject, PausedOnRecord, AlikeTurns, Start;
    PausesAreOnRecord(env, started, steps);
    var t := ExecuteSaga(env, started, steps);
    if t.end == Paused {
      RestartIsInvisible(env, t.s);
    }
  }

  // ── A whole life in any environment ───────────────────────────────

  /** A restart leaves a pause that is on record as it was. */
  lemma RestartOnRecord<W>(env: Env<W>, s: Sys<W>)
    requires PausedOnRecord(s)
    ensures var t := Recover(env, s); t.end == Paused && PausedOnRecord(t.s) && Alike(s, t.s)
  {
    RestartRebuildsMemory(env, s);
    StepsRoundTrip(s.saga.value.pendingSteps);
    assert SerializeSteps(s.saga.value.pendingSteps) != [];
    CommittedStepsName(s.ledger.entries);
    hide RecoverEffects, SerializeSteps, DeserializeSteps;
    var t := Recover(env, s);
    assert t.s.saga.value.completedSteps == CommittedSteps(s.ledger.entries);
    hide CommittedSteps, Recover, DistinctIds;
    assert Tidy(t.s);
  }

  /** What a saga's whole life may come to, whatever the environment does. */
  ghost predicate SafeLife<W>(t: Turn<W>) {
    match t.end
    case Crashed => t.s.ledger.status in {Some(SagaStatus.Running), Some(SagaStatus.Compensating)}
    case Restored => AllSettled(t.s.ledger.entries) && t.s.ledger.status == Some(SagaStatus.RolledBack)
    case RollbackFailed => t.s.ledger.status == Some(SagaStatus.CompensationFailed) && t.s.ledger.deadLetters != []
    case Quarantined => QuarantinedLast(t.s)
    case AllCommitted => Tidy(t.s) && t.s.ledger.status == Some(SagaStatus.Committed)
    case Paused => PausedOnRecord(t.s)
    case _ => false
  }

  lemma RunningSafe<W>(env: Env<W>, s: Sys<W>, steps: seq<SagaStep>)
    requires Tidy(s) && Owned(s) && s.ledger.status == Some(SagaStatus.Running)
    ensures s.saga.Some? && SafeLife(ExecuteSteps(env, s, steps))
  {
    hide Tidy, ExecuteSteps, QuarantinedLast, PausedOnRecord;
    ExecutionNeverFalselyClaims(env, s, steps);
    PausesAreOnRecord(env, s, steps);
  }

  /** Approving a pause. */
  lemma ResumeSafe<W>(env: Env<W>, s: Sys<W>)
    requires PausedOnRecord(s)
    ensures SafeLife(Resume(env, s))
  {
    var l := WriteStatus(s.ledger, SagaStatus.Running);
    var s' := s.(saga := Some(s.saga.value.(pendingSteps := [], status := SagaStatus.Running)),
                 ledger := l.(metadata := l.metadata.(pendingSteps := [])));
    var pending := s.saga.value.pendingSteps;
    assert Tidy(s') by { hide DistinctIds; }
    hide Tidy, ExecuteSteps, SafeLife, SerializeSteps;
    RunningSafe(env, s', pending[0 := pending[0].(approved := true)]);
  }

  /** Rejecting a pause. */
  lemma RejectPauseSafe<W>(env: Env<W>, s: Sys<W>)
    requires PausedOnRecord(s)
    ensures SafeLife(Reject(env, s))
  {
    var saga := s.saga.value.(pendingSteps := []);
    var l := WriteStatus(s.ledger, SagaStatus.Compensating);
    var s' := s.(saga := Some(saga), ledger := l.(metadata := l.metadata.(pendingSteps := [])));
    assert Tidy(s') by { hide DistinctIds; }
    assert Reject(env, s) == RollBack(env, s', saga.completedSteps);
    hide Tidy, Reject, Abandon, RollBack, SerializeSteps, PausedOnRecord;
    AbandonIs(env, s');
    TidyAbandon(env, s', s');
  }

  lemma {:induction false} ServeSafe<W>(env: Env<W>, t: Turn<W>, decisions: seq<Decision>)
    requires SafeLife(t)
    ensures SafeLife(Serve(env, t, decisions))
    decreases |decisions|
  {
    if t.end == Paused && decisions != [] {
      hide PausedOnRecord, Resume, Reject, Recover, Tidy, QuarantinedLast;
      match decisions[0] {
        case Approve => ResumeSafe(env, t.s); ServeSafe(env, Resume(env, t.s), decisions[1..]);
        case Decline => RejectPauseSafe(env, t.s); ServeSafe(env, Reject(env, t.s), decisions[1..]);
        case Restart => RestartOnRecord(env, t.s); ServeSafe(env, Recover(env, t.s), decisions[1..]);
      }
    }
  }

  /**
   In any environment, one call of a fresh saga with any approvals, rejections and restarts is reported
   as rolled back only with every record settled, and no crash finds ROLLED_BACK on record.
   */
  lemma LifeNeverFalselyClaims<W(!new)>(
    env: Env<W>, s: Sys<W>, goal: string, tenantId: string, now: real, steps: seq<SagaStep>, decisions: seq<Decision>)
    requires Fresh(s)
    ensures SafeLife(Serve(env, ExecuteSaga(env, Start(s, goal, tenantId, now).s, steps), decisions))
  {
    var started := Start(s, goal, tenantId, now).s;
    assert Tidy(started) && Owned(started);
    hide Tidy, ExecuteSteps, Serve, SafeLife;
    RunningSafe(env, started, steps);
    ServeSafe(env, ExecuteSaga(env, started, steps), decisions);
  }

  // ── Any number of restarts ────────────────────────────────────────

  function WithoutRestarts(decisions: seq<Decision>): seq<Decision> {
    if decisions == [] then []
    else (if decisions[0] == Restart then [] else [decisions[0]]) + WithoutRestarts(decisions[1..])
  }

  lemma AlikeTurnsTurn<W>(t: Turn<W>, u: Turn<W>, v: Turn<W>)
    ensures AlikeTurns(t, t)
    ensures AlikeTurns(t, u) ==> AlikeTurns(u, t)
    ensures AlikeTurns(t, u) && AlikeTurns(u, v) ==> AlikeTurns(t, v)
  {
    if AlikeTurns(t, u) && t.s.saga.Some? {
      assert forall i | 0 <= i < |t.s.saga.value.completedSteps| ::
        AlikeSteps(t.s.saga.value.completedSteps[i], u.s.saga.value.completedSteps[i]);
    }
  }

  /** Recovery does not look at the memory of the process before. */
  lemma RecoverForgets<W>(env: Env<W>, s: Sys<W>, s': Sys<W>)
    requires Alike(s, s')
    ensures Recover(env, s) == Recover(env, s')
  {
    hide RecoverEffects, DeserializeSteps, CommittedSteps;
    assert s.(saga := None) == s'.(saga := None);
  }

  lemma {:induction false} ServeAlike<W>(env: Env<W>, t: Turn<W>, t': Turn<W>, decisions: seq<Decision>)
    requires AlikeTurns(t, t')
    ensures AlikeTurns(Serve(env, t, decisions), Serve(env, t', decisions))
    decreases |decisions|
  {
    hide Alike, Resume, Reject, Recover;
    if t.end == Paused && decisions != [] {
      ResumeAlike(env, t.s, t'.s);
      RejectAlike(env, t.s, t'.s);
      RecoverForgets(env, t.s, t'.s);
      var r := Recover(env, t.s);
      AlikeTurnsTurn(r, r, r);
      var next := match decisions[0]
                  case Approve => Resume(env, t.s)
                  case Decline => Reject(env, t.s)
                  case Restart => r;
      var next' := match decisions[0]
                   case Approve => Resume(env, t'.s)
                   case Decline => Reject(env, t'.s)
                   case Restart => r;
      ServeAlike(env, next, next', decisions[1..]);
    }
  }

  /** Whatever is decided about a pause on record, restarts in between make no difference. */
  lemma {:induction false} RestartsAreInvisible<W>(env: Env<W>, t: Turn<W>, decisions: seq<Decision>)
    requires SafeLife(t)
    ensures AlikeTurns(Serve(env, t, decisions), Serve(env, t, WithoutRestarts(decisions)))
    decreases |decisions|
  {
    hide Alike, Resume, Reject, Recover, PausedOnRecord, Tidy, QuarantinedLast, AlikeTurns;
    AlikeTurnsTurn(t, t, t);
    if t.end == Paused && decisions != [] {
      var rest := decisions[1..];
      match decisions[0] {
        case Approve =>
          ResumeSafe(env, t.s);
          RestartsAreInvisible(env, Resume(env, t.s), rest);
          assert WithoutRestarts(decisions)[1..] == WithoutRestarts(rest);
        case Decline =>
          RejectPauseSafe(env, t.s);
          RestartsAreInvisible(env, Reject(env, t.s), rest);
          assert WithoutRestarts(decisions)[1..] == WithoutRestarts(rest);
        case Restart =>
          RestartOnRecord(env, t.s);
          var r := Recover(env, t.s);
          assert AlikeTurns(t, r) by { AlikeIs(t, r); }
          ServeAlike(env, t, r, rest);
          RestartsAreInvisible(env, t, rest);
          var a, b, c := Serve(env, r, rest), Serve(env, t, rest), Serve(env, t, WithoutRestarts(rest));
          AlikeTurnsTurn(b, a, a);
          AlikeTurnsTurn(a, b, c);
          assert WithoutRestarts(decisions) == WithoutRestarts(rest);
      }
    }
  }

  lemma AlikeIs<W>(t: Turn<W>, u: Turn<W>)
    requires t.end == u.end && Alike(t.s, u.s)
    ensures AlikeTurns(t, u)
  {
  }
}
