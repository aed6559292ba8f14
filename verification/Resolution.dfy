/**
 What rollback and recovery do with one record, told by the answers of the environment at each
 instant: when the compensation is called, what its answers and the resolvers' answers lead to, and
 what each checkpoint leaves.
 */
module Resolution {
  import opened Prelude
  import opened Sagas
  import opened Journal
  import opened Environment
  import opened CoordinatorSpec
  import opened Restoration

  /** Record k with another state; the rest of the journal as it was. */
  function RecordIn(entries: seq<Entry>, k: nat, state: EffectState, error: string): seq<Entry>
    requires k < |entries|
  {
    entries[k := entries[k].(state := state, error := error)]
  }

  predicate UndoSucceeds<W>(c: CallChoice, target: Option<W>) {
    c.Succeed? && target.Some?
  }

  predicate UndoApplies<W>(c: CallChoice, target: Option<W>) {
    target.Some? && (c.Succeed? || (c.Fail? && c.applied) || (c.Raise? && c.applied))
  }

  /** World and history after a compensation call that was answered by c. */
  function AfterUndo<W>(x: Sys<W>, c: CallChoice, target: Option<W>, stepId: string): Sys<W> {
    if UndoApplies(c, target) then x.(world := target.value, undos := x.undos + multiset{stepId}) else x
  }

  // ── Rollback ──────────────────────────────────────────────────────

  /** A compensation that failed: both statuses, one dead letter, and the mark on its record if it was being undone. */
  lemma FailureTable<W>(s: Sys<W>, step: SagaStep)
    ensures var t, k := HandleCompensationFailure(s, step), IndexOf(s.ledger.entries, step.stepId);
      && t.end == RollbackFailed
      && t.s == s.(ledger := t.s.ledger, saga := t.s.saga)
      && t.s.saga == (if s.saga.Some? then Some(s.saga.value.(status := SagaStatus.CompensationFailed)) else None)
      && t.s.ledger.status == Some(SagaStatus.CompensationFailed)
      && t.s.ledger.deadLetters == s.ledger.deadLetters + [DeadLetter(step.stepName, UNDO_FAILED)]
      && t.s.ledger.metadata == s.ledger.metadata && t.s.ledger.published == s.ledger.published
      && t.s.ledger.entries ==
           (if k < |s.ledger.entries| && s.ledger.entries[k].state == EffectState.Compensating
            then RecordIn(s.ledger.entries, k, EffectState.CompensationFailed, UNDO_FAILED) else s.ledger.entries)
  {
  }

  /**
   Undoing the record k of a step, already marked COMPENSATING, at instant n. The first checkpoint
   precedes the call, made at n + 1; the second follows an answer that was not an exception; the third
   finds the record COMPENSATED.
   */
  lemma UndoTable<W>(env: Env<W>, s: Sys<W>, step: SagaStep, k: nat)
    requires k < |s.ledger.entries| && k == IndexOf(s.ledger.entries, step.stepId)
    requires s.ledger.entries[k].state == EffectState.Compensating
    ensures var t, n := CompensationCall(env, s, step), s.clock;
      var c, target := env.choice(n + 1).undoCall, env.undo(step.compensation, s.world);
      var y := AfterUndo(s, c, target, step.stepId);
      if env.choice(n).crash then t == Turn(s.(clock := n + 1), Crashed)
      else if c.Raise? then t == HandleCompensationFailure(y.(clock := n + 2), step)
      else if env.choice(n + 2).crash then t == Turn(y.(clock := n + 3), Crashed)
      else if !UndoSucceeds(c, target) then t == HandleCompensationFailure(y.(clock := n + 3), step)
      else
        && t.end == (if env.choice(n + 3).crash then Crashed else Proceed)
        && t.s == y.(clock := n + 4, ledger := t.s.ledger)
        && t.s.ledger == SetState(s.ledger, k, EffectState.Compensated, "")
  {
    hide HandleCompensationFailure, IndexOf;
  }

  /** Which records a rollback undoes, and how it begins. */
  lemma CompensateTable<W>(env: Env<W>, s: Sys<W>, step: SagaStep)
    ensures var t, k := CompensateStep(env, s, step), IndexOf(s.ledger.entries, step.stepId);
      if k == |s.ledger.entries| then t == HandleCompensationFailure(s, step)
      else
        var state := s.ledger.entries[k].state;
        if state in {EffectState.Applied, EffectState.Committed}
        then t == CompensationCall(env, s.(ledger := SetState(s.ledger, k, EffectState.Compensating, "")), step)
        else if state == EffectState.Compensating then t == CompensationCall(env, s, step)
        else t == HandleCompensationFailure(s, step)
  {
    hide HandleCompensationFailure, CompensationCall, IndexOf;
  }

  // ── What memory and operators are told ────────────────────────────

  /** The status in memory and on record is this one, or nothing in memory when the process does not know the saga. */
  ghost predicate BothSay<W>(s: Sys<W>, status: SagaStatus) {
    s.ledger.status == Some(status) && (s.saga.Some? ==> s.saga.value.status == status)
  }

  ghost predicate SameMemory<W>(s: Sys<W>, s': Sys<W>) {
    s'.saga == s.saga && s'.ledger.deadLetters == s.ledger.deadLetters && s'.ledger.metadata == s.ledger.metadata
  }

  /** What a rollback tells: memory and record agree, and a failure adds one dead letter, for a step it was to undo. */
  ghost predicate Told<W>(s: Sys<W>, t: Turn<W>, completed: seq<SagaStep>) {
    match t.end
    case Restored => BothSay(t.s, SagaStatus.RolledBack) && t.s.ledger.deadLetters == s.ledger.deadLetters
    case Crashed => SameMemory(s, t.s)
    case RollbackFailed =>
      && BothSay(t.s, SagaStatus.CompensationFailed)
      && exists j :: 0 <= j < |completed|
           && t.s.ledger.deadLetters == s.ledger.deadLetters + [DeadLetter(completed[j].stepName, UNDO_FAILED)]
    case _ => false
  }

  lemma StepTells<W>(env: Env<W>, s: Sys<W>, step: SagaStep)
    ensures var t := CompensateStep(env, s, step);
      && t.end in {Proceed, Crashed, RollbackFailed}
      && (t.end != RollbackFailed ==> SameMemory(s, t.s))
      && (t.end == RollbackFailed ==>
            BothSay(t.s, SagaStatus.CompensationFailed)
            && t.s.ledger.deadLetters == s.ledger.deadLetters + [DeadLetter(step.stepName, UNDO_FAILED)])
  {
    hide CompensateStep, CompensationCall, HandleCompensationFailure, IndexOf;
    CompensateTable(env, s, step);
    FailureTable(s, step);
    var k := IndexOf(s.ledger.entries, step.stepId);
    if k < |s.ledger.entries| && s.ledger.entries[k].state in
      {EffectState.Applied, EffectState.Committed, EffectState.Compensating} {
      var x := if s.ledger.entries[k].state == EffectState.Compensating then s
               else s.(ledger := SetState(s.ledger, k, EffectState.Compensating, ""));
      IndexOfSameIds(s.ledger.entries, x.ledger.entries, step.stepId);
      UndoTable(env, x, step, k);
      var n := x.clock;
      var y := AfterUndo(x, env.choice(n + 1).undoCall, env.undo(step.compensation, x.world), step.stepId);
      FailureTable(y.(clock := n + 2), step);
      FailureTable(y.(clock := n + 3), step);
    }
  }

  lemma {:induction false} RollbackTells<W>(env: Env<W>, s: Sys<W>, completed: seq<SagaStep>)
    ensures Told(s, CompensateAll(env, s, completed), completed)
    decreases |completed|
  {
    hide CompensateStep;
    if completed != [] {
      var step, rest := completed[|completed| - 1], completed[..|completed| - 1];
      StepTells(env, s, step);
      var t := CompensateStep(env, s, step);
      if t.end == Proceed {
        RollbackTells(env, t.s, rest);
        var u := CompensateAll(env, t.s, rest);
        if u.end == RollbackFailed {
          var j :| 0 <= j < |rest|
            && u.s.ledger.deadLetters == t.s.ledger.deadLetters + [DeadLetter(rest[j].stepName, UNDO_FAILED)];
          assert completed[j] == rest[j];
        }
      }
    }
  }

  /** While a rollback is under way the durable status says so. */
  lemma {:induction false} CompensatingStays<W>(env: Env<W>, s: Sys<W>, completed: seq<SagaStep>)
    requires s.ledger.status == Some(SagaStatus.Compensating)
    ensures var t := CompensateAll(env, s, completed);
      t.end == Crashed ==> t.s.ledger.status == Some(SagaStatus.Compensating)
    decreases |completed|
  {
    hide CompensateStep;
    if completed != [] {
      var step := completed[|completed| - 1];
      CompensateStepBookkeeping(env, s, step);
      if CompensateStep(env, s, step).end == Proceed {
        CompensatingStays(env, CompensateStep(env, s, step).s, completed[..|completed| - 1]);
      }
    }
  }

  /** A rollback tells memory and operators the same, and a crash in it is found under COMPENSATING. */
  lemma RollbackIsTold<W>(env: Env<W>, s: Sys<W>, completed: seq<SagaStep>)
    ensures Told(s, RollBack(env, s, completed), completed)
    ensures RollBack(env, s, completed).end == Crashed ==>
      RollBack(env, s, completed).s.ledger.status == Some(SagaStatus.Compensating)
  {
    hide CompensateAll;
    var y := WithStatus(s, SagaStatus.Compensating);
    RollbackTells(env, y, completed);
    CompensatingStays(env, y, completed);
  }

  /**
   A call that raised: after the rollback its record is AMBIGUOUS, the durable status COMPENSATION_FAILED and
   the last dead letter names it, whatever the rollback came to; memory is told only about the rollback.
   */
  lemma RaisedTells<W>(env: Env<W>, s: Sys<W>, step: SagaStep)
    ensures var t, u := AbandonAmbiguous(env, s, step), Abandon(env, s);
      if u.end == Crashed then t == u
      else
        && t.end == Quarantined
        && t.s == u.s.(ledger := t.s.ledger)
        && t.s.ledger.status == Some(SagaStatus.CompensationFailed)
        && t.s.ledger.deadLetters == u.s.ledger.deadLetters + [DeadLetter(step.stepName, CALL_RAISED)]
        && t.s.ledger.metadata == u.s.ledger.metadata && t.s.ledger.published == u.s.ledger.published
        && var k := IndexOf(u.s.ledger.entries, step.stepId);
          t.s.ledger.entries ==
            if k < |u.s.ledger.entries| && u.s.ledger.entries[k].state == EffectState.Executing
            then RecordIn(u.s.ledger.entries, k, EffectState.Ambiguous, CALL_RAISED) else u.s.ledger.entries
  {
    hide Abandon, IndexOf;
  }

  // ── Recovery ──────────────────────────────────────────────────────

  /** Recovery put this record into quarantine and told operators why; world and history are those of y. */
  ghost predicate GaveUp<W>(y: Sys<W>, t: Turn<W>, k: nat, state: EffectState, error: string)
    requires k < |y.ledger.entries|
  {
    && t.end == Quarantined
    && t.s == y.(ledger := t.s.ledger)
    && t.s.ledger.status == Some(SagaStatus.CompensationFailed)
    && t.s.ledger.metadata == y.ledger.metadata && t.s.ledger.published == y.ledger.published
    && t.s.ledger.deadLetters == y.ledger.deadLetters + [DeadLetter(y.ledger.entries[k].stepName, error)]
    && t.s.ledger.entries ==
         (if y.ledger.entries[k].state == state then y.ledger.entries else RecordIn(y.ledger.entries, k, state, error))
  }

  /** Record k was moved, and nothing else happened. */
  ghost predicate Moved<W>(y: Sys<W>, t: Turn<W>, k: nat, state: EffectState)
    requires k < |y.ledger.entries|
  {
    t == Turn(y.(ledger := SetState(y.ledger, k, state, "")), Proceed)
  }

  /** Record k is about to be undone: from its state by way of these. */
  function Opened(l: Ledger, k: nat): Ledger
    requires k < |l.entries|
  {
    SetState(l, k, EffectState.Compensating, "")
  }

  /** As UndoTable, for recovery: there is no checkpoint after the record is COMPENSATED, and exceptions are failures. */
  lemma RecoveryUndoTable<W>(env: Env<W>, s: Sys<W>, e: Entry, k: nat)
    requires k < |s.ledger.entries| && DistinctIds(s.ledger.entries)
    requires s.ledger.entries[k].stepId == e.stepId && s.ledger.entries[k].stepName == e.stepName
    requires s.ledger.entries[k].state == EffectState.Compensating
    ensures var t, n := RecoveryCompensation(env, s, e), s.clock;
      var c, target := env.choice(n + 1).undoCall, env.undo(e.compensation, s.world);
      var y := AfterUndo(s, c, target, e.stepId);
      if env.choice(n).crash then t == Turn(s.(clock := n + 1), Crashed)
      else if !UndoSucceeds(c, target) then GaveUp(y.(clock := n + 2), t, k, EffectState.CompensationFailed, UNDO_FAILED)
      else if env.choice(n + 2).crash then t == Turn(y.(clock := n + 3), Crashed)
      else Moved(y.(clock := n + 3), t, k, EffectState.Compensated)
  {
    hide DistinctIds;
    MoveAtIs(s.ledger, k, RecordCompensated, "");
    MoveAtIs(s.ledger, k, FailCompensation, UNDO_FAILED);
    hide MoveAt;
  }

  lemma GiveUpForward<W>(y: Sys<W>, k: nat, error: string)
    requires k < |y.ledger.entries| && DistinctIds(y.ledger.entries)
    requires y.ledger.entries[k].state in {EffectState.Executing, EffectState.Ambiguous}
    ensures GaveUp(y, QuarantineForward(y, y.ledger.entries[k], error), k, EffectState.Ambiguous, error)
  {
    hide DistinctIds;
    MoveAtIs(y.ledger, k, MarkAmbiguous, error);
    hide MoveAt;
  }

  lemma GiveUpUndo<W>(y: Sys<W>, k: nat, error: string)
    requires k < |y.ledger.entries| && DistinctIds(y.ledger.entries)
    requires y.ledger.entries[k].state == EffectState.Compensating
    ensures GaveUp(y, FailRecoveryCompensation(y, y.ledger.entries[k], error), k, EffectState.CompensationFailed, error)
  {
    hide DistinctIds;
    MoveAtIs(y.ledger, k, FailCompensation, error);
    hide MoveAt;
  }

  /** An interrupted call whose effect is taken to be there: APPLIED, COMPENSATING, and then the compensation call. */
  lemma ConfirmedIs<W>(env: Env<W>, y: Sys<W>, k: nat)
    requires k < |y.ledger.entries| && DistinctIds(y.ledger.entries)
    requires y.ledger.entries[k].state in {EffectState.Executing, EffectState.Ambiguous}
    ensures var e := y.ledger.entries[k];
      var applied := SetState(y.ledger, k, EffectState.Applied, "");
      && RecoveryMove(y, e.stepId, ConfirmApplied) == Turn(y.(ledger := applied), Proceed)
      && BeginRecoveryCompensation(env, y.(ledger := applied), e) ==
           RecoveryCompensation(env, y.(ledger := Opened(applied, k)), e)
      && Moved(y, RecoveryMove(y, e.stepId, AbortUnapplied), k, EffectState.Aborted)
  {
    hide RecoveryCompensation;
    MoveAtIs(y.ledger, k, ConfirmApplied, "");
    MoveAtIs(y.ledger, k, AbortUnapplied, "");
    var applied := SetState(y.ledger, k, EffectState.Applied, "");
    assert DistinctIds(applied.entries) && applied.entries[k].stepId == y.ledger.entries[k].stepId;
    hide DistinctIds;
    MoveAtIs(applied, k, BeginCompensation, "");
    hide MoveAt;
  }

  /** The resolver's answer about a record at this instant, the truth being as said. */
  function AnswerAt<W>(env: Env<W>, instant: nat, truth: bool): Value
    requires env.choice(instant).resolver.Answers?
  {
    if truth then env.choice(instant).resolver.ifApplied else env.choice(instant).resolver.ifNot
  }

  /**
   An interrupted forward call. A published key proves its effect. Otherwise the resolver is asked: an
   answer that means applied leads to compensation, one that means not applied to ABORTED, and any other
   answer, or none, to quarantine. Without a resolver, a keyed call may be repeated on an idempotent
   receiver, and its success proves the effect. Without either the outcome is unknown.
   */
  lemma ForwardTable<W>(env: Env<W>, s: Sys<W>, k: nat)
    requires k < |s.ledger.entries| && DistinctIds(s.ledger.entries)
    requires s.ledger.entries[k].state in {EffectState.Executing, EffectState.Ambiguous}
    ensures var t, e, n := RecoverEffect(env, s, s.ledger.entries[k]), s.ledger.entries[k], s.clock;
      var there := InForce(s, e.stepId);
      var open := Opened(SetState(s.ledger, k, EffectState.Applied, ""), k);
      if Keyed(e.idempotencyKey) && e.idempotencyKey.value in s.ledger.published then
        t == RecoveryCompensation(env, s.(ledger := open), e)
      else if env.hasResolver then
        var y := s.(clock := n + 1);
        if env.choice(n).resolver.Broken? then GaveUp(y, t, k, EffectState.Ambiguous, RESOLVER_FAILED)
        else
          var answer := AnswerAt(env, n, there);
          if MeansApplied(answer) then t == RecoveryCompensation(env, y.(ledger := open), e)
          else if MeansNotApplied(answer) then Moved(y, t, k, EffectState.Aborted)
          else GaveUp(y, t, k, EffectState.Ambiguous, OUTCOME_UNKNOWN)
      else if Keyed(e.idempotencyKey) && env.hasReplay then
        var c, target := env.choice(n).call, if there then Some(s.world) else env.act(e.action, s.world);
        var y := if !there && UndoApplies(c, target)
                 then s.(clock := n + 1, world := target.value, runs := s.runs + multiset{e.stepId})
                 else s.(clock := n + 1);
        if UndoSucceeds(c, target) then t == RecoveryCompensation(env, y.(ledger := open), e)
        else if c.Raise? || (c.Succeed? && env.refusalRaises) then GaveUp(y, t, k, EffectState.Ambiguous, RESOLVER_FAILED)
        else GaveUp(y, t, k, EffectState.Ambiguous, OUTCOME_UNKNOWN)
      else GaveUp(s, t, k, EffectState.Ambiguous, OUTCOME_UNKNOWN)
  {
    hide DistinctIds, RecoveryCompensation, BeginRecoveryCompensation, RecoveryMove, QuarantineForward, GaveUp, Moved,
      NormaliseResolution, MeansApplied, MeansNotApplied, Opened, SetState;
    var e := s.ledger.entries[k];
    if env.hasResolver && env.choice(s.clock).resolver.Answers? {
      AnswersAreUnderstood(AnswerAt(env, s.clock, InForce(s, e.stepId)));
      NeverBoth(AnswerAt(env, s.clock, InForce(s, e.stepId)));
    }
    var r := ResolveForwardEffect(env, s, e);
    assert r.s.ledger == s.ledger;
    GiveUpForward(r.s, k, OUTCOME_UNKNOWN);
    GiveUpForward(r.s, k, RESOLVER_FAILED);
    ConfirmedIs(env, r.s, k);
  }

  lemma NeverBoth(value: Value)
    ensures !(MeansApplied(value) && MeansNotApplied(value))
  {
  }

  /** An interrupted compensation: asked about in the same way, called again only when it is known not to have happened. */
  lemma UndoingTable<W>(env: Env<W>, s: Sys<W>, k: nat)
    requires k < |s.ledger.entries| && DistinctIds(s.ledger.entries)
    requires s.ledger.entries[k].state == EffectState.Compensating
    ensures var t, e, n := RecoverEffect(env, s, s.ledger.entries[k]), s.ledger.entries[k], s.clock;
      var y := s.(clock := n + 1);
      if !env.hasResolver then GaveUp(s, t, k, EffectState.CompensationFailed, UNDO_UNKNOWN)
      else if env.choice(n).resolver.Broken? then GaveUp(y, t, k, EffectState.CompensationFailed, UNDO_RESOLVER_FAILED)
      else
        var answer := AnswerAt(env, n, !InForce(s, e.stepId));
        if MeansApplied(answer) then Moved(y, t, k, EffectState.Compensated)
        else if MeansNotApplied(answer) then t == RecoveryCompensation(env, y, e)
        else GaveUp(y, t, k, EffectState.CompensationFailed, UNDO_UNKNOWN)
  {
    hide DistinctIds, RecoveryCompensation, FailRecoveryCompensation, GaveUp, NormaliseResolution, MeansApplied,
      MeansNotApplied;
    var e := s.ledger.entries[k];
    if env.hasResolver && env.choice(s.clock).resolver.Answers? {
      AnswersAreUnderstood(AnswerAt(env, s.clock, !InForce(s, e.stepId)));
      NeverBoth(AnswerAt(env, s.clock, !InForce(s, e.stepId)));
    }
    var y := ResolveCompensation(env, s, e).s;
    GiveUpUndo(y, k, UNDO_UNKNOWN);
    GiveUpUndo(y, k, UNDO_RESOLVER_FAILED);
    MoveAtIs(y.ledger, k, RecordCompensated, "");
    hide MoveAt;
  }

  /** Records that were not in the middle of a call. */
  lemma SettledTable<W>(env: Env<W>, s: Sys<W>, k: nat)
    requires k < |s.ledger.entries| && DistinctIds(s.ledger.entries)
    ensures var t, e := RecoverEffect(env, s, s.ledger.entries[k]), s.ledger.entries[k];
      match e.state
      case Prepared => Moved(s, t, k, EffectState.Aborted)
      case Applied | Committed => t == RecoveryCompensation(env, s.(ledger := Opened(s.ledger, k)), e)
      case Aborted | Compensated => t == Turn(s, Proceed)
      case CompensationFailed =>
        GaveUp(s, t, k, EffectState.CompensationFailed, if e.error != "" then e.error else PRIOR_FAILURE)
      case Executing | Ambiguous | Compensating => true
  {
    hide DistinctIds, RecoveryCompensation, RecoverForward, RecoverUndo;
    MoveAtIs(s.ledger, k, AbortPrepared, "");
    MoveAtIs(s.ledger, k, BeginCompensation, "");
    hide MoveAt;
  }

  /**
   Which sagas recovery takes up: those whose status is PENDING, RUNNING, AWAITING_APPROVAL or
   COMPENSATING. One that waits for approval, with steps on record, is put back to waiting; of any other
   the journal is resolved, and only when all of it was is ROLLED_BACK written.
   */
  lemma RecoverTable<W>(env: Env<W>, s: Sys<W>)
    ensures var t, dead, status := Recover(env, s), s.(saga := None), s.ledger.status;
      if status in {None, Some(SagaStatus.Committed), Some(SagaStatus.RolledBack), Some(SagaStatus.CompensationFailed),
                    Some(SagaStatus.Failed)}
      then t == Turn(dead, Proceed)
      else if status == Some(SagaStatus.AwaitingApproval) && s.ledger.metadata.pendingSteps != [] then
        t == RestorePaused(dead)
      else
        var u := RecoverEffects(env, dead, s.ledger.entries);
        t == if u.end == Proceed then Turn(u.s.(ledger := u.s.ledger.(status := Some(SagaStatus.RolledBack))), Restored) else u
  {
    hide RecoverEffect, RestorePaused;
  }
}
