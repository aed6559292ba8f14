/**
 What the report ROLLED_BACK is worth. `execute_saga` has no guard on the status it starts under,
 and a rollback undoes what the process remembers as completed, not what the journal holds. This
 says exactly when its report is true, in any environment, and how it can become false.
 */
module Reports {
  import opened Prelude
  import opened Sagas
  import opened Journal
  import opened Environment
  import opened CoordinatorSpec
  import opened Runs
  import opened Restoration
  import opened CrashRecovery
  import opened Claims

  // ── What the process can account for ──────────────────────────────

  ghost predicate NamedIn(completed: seq<SagaStep>, stepId: string) {
    exists j :: 0 <= j < |completed| && completed[j].stepId == stepId
  }

  /** Every record is settled or belongs to a step on this list. */
  ghost predicate AccountedIn(entries: seq<Entry>, completed: seq<SagaStep>) {
    forall i | 0 <= i < |entries| :: Settled(entries[i].state) || NamedIn(completed, entries[i].stepId)
  }

  /** The process remembers the step of every record that is not settled. */
  ghost predicate Accounted<W>(s: Sys<W>) {
    DistinctIds(s.ledger.entries) && AccountedIn(s.ledger.entries, Completed(s))
  }

  // ── Rollback ──────────────────────────────────────────────────────

  /** The states a rollback can undo. */
  predicate CanUndo(state: EffectState) {
    state in {EffectState.Applied, EffectState.Committed, EffectState.Compensating}
  }

  lemma OnlyChangedIds<W>(s: Sys<W>, s': Sys<W>, k: nat)
    requires OnlyChanged(s, s', k) && DistinctIds(s.ledger.entries)
    ensures DistinctIds(s'.ledger.entries)
    ensures forall id :: IndexOf(s'.ledger.entries, id) == IndexOf(s.ledger.entries, id)
  {
    forall id
      ensures IndexOf(s'.ledger.entries, id) == IndexOf(s.ledger.entries, id)
    {
      IndexOfSameIds(s.ledger.entries, s'.ledger.entries, id);
    }
    assert forall i | 0 <= i < |s.ledger.entries| :: s'.ledger.entries[i].stepId == s.ledger.entries[i].stepId;
  }

  lemma HandleChanges<W>(s: Sys<W>, k: nat, step: SagaStep)
    requires DistinctIds(s.ledger.entries) && k < |s.ledger.entries| && s.ledger.entries[k].stepId == step.stepId
    ensures var t := HandleCompensationFailure(s, step);
      && t.end == RollbackFailed && OnlyChanged(s, t.s, k)
      && t.s.ledger.entries[k].state ==
           (if s.ledger.entries[k].state == EffectState.Compensating then EffectState.CompensationFailed
            else s.ledger.entries[k].state)
  {
    hide DistinctIds;
    MoveAtIs(WriteStatus(s.ledger, SagaStatus.CompensationFailed), k, FailCompensation, UNDO_FAILED);
    hide MoveAt;
  }

  lemma CallChanges<W>(env: Env<W>, s: Sys<W>, k: nat, step: SagaStep)
    requires DistinctIds(s.ledger.entries) && k < |s.ledger.entries| && s.ledger.entries[k].stepId == step.stepId
    requires s.ledger.entries[k].state == EffectState.Compensating
    ensures var t := CompensationCall(env, s, step);
      && t.end in {Proceed, Crashed, RollbackFailed}
      && (t.end == Proceed ==> OnlyChanged(s, t.s, k) && t.s.ledger.entries[k].state == EffectState.Compensated)
      && (t.end == RollbackFailed ==>
            OnlyChanged(s, t.s, k) && t.s.ledger.entries[k].state == EffectState.CompensationFailed)
  {
    hide MoveAt, ExecuteCompensation, HandleCompensationFailure, DistinctIds, CrashesHere;
    var a := ExecuteCompensation(env, Tick(s), step.stepId, step.compensation);
    UndoKeepsBooks(env, Tick(s), step.stepId, step.compensation);
    HandleChanges(a.s, k, step);
    HandleChanges(Tick(a.s), k, step);
    MoveAtIs(s.ledger, k, RecordCompensated, "");
  }

  /** A compensation that goes through settles the record of its step, which it could undo, and no other. */
  lemma CompensateStepChanges<W>(env: Env<W>, s: Sys<W>, step: SagaStep)
    requires DistinctIds(s.ledger.entries)
    ensures var k, t := IndexOf(s.ledger.entries, step.stepId), CompensateStep(env, s, step);
      && t.end in {Proceed, Crashed, RollbackFailed}
      && (t.end == Proceed ==>
            && k < |s.ledger.entries| && CanUndo(s.ledger.entries[k].state)
            && OnlyChanged(s, t.s, k) && t.s.ledger.entries[k].state == EffectState.Compensated)
      && (t.end == RollbackFailed && k < |s.ledger.entries| ==>
            && OnlyChanged(s, t.s, k)
            && (if CanUndo(s.ledger.entries[k].state)
                then t.s.ledger.entries[k].state == EffectState.CompensationFailed
                else t.s.ledger.entries[k].state == s.ledger.entries[k].state))
  {
    hide MoveAt, CompensationCall, HandleCompensationFailure, DistinctIds;
    HandledIsFailed(s, step);
    var k := IndexOf(s.ledger.entries, step.stepId);
    if k < |s.ledger.entries| {
      MoveAtIs(s.ledger, k, BeginCompensation, "");
      HandleChanges(s, k, step);
      var state := s.ledger.entries[k].state;
      if state in Expected(BeginCompensation) {
        var s1 := s.(ledger := SetState(s.ledger, k, EffectState.Compensating, ""));
        OnlyChangedIds(s, s1, k);
        CallChanges(env, s1, k, step);
      } else if state == EffectState.Compensating {
        CallChanges(env, s, k, step);
      }
    }
  }

  /** A rollback that goes through has settled the record of every step on the list, and touched no other. */
  lemma {:induction false} RollbackSettles<W>(env: Env<W>, s: Sys<W>, completed: seq<SagaStep>)
    requires DistinctIds(s.ledger.entries)
    ensures var t := CompensateAll(env, s, completed);
      t.end == Restored ==>
        && DistinctIds(t.s.ledger.entries) && |t.s.ledger.entries| == |s.ledger.entries|
        && forall i | 0 <= i < |s.ledger.entries| ::
             if NamedIn(completed, s.ledger.entries[i].stepId) then Settled(t.s.ledger.entries[i].state)
             else t.s.ledger.entries[i] == s.ledger.entries[i]
    decreases |completed|
  {
    hide CompensateStep, DistinctIds;
    if completed != [] {
      var n := |completed| - 1;
      var step, rest := completed[n], completed[..n];
      CompensateStepChanges(env, s, step);
      var t := CompensateStep(env, s, step);
      if t.end == Proceed {
        var k := IndexOf(s.ledger.entries, step.stepId);
        OnlyChangedIds(s, t.s, k);
        RollbackSettles(env, t.s, rest);
        forall i | 0 <= i < |s.ledger.entries|
          ensures NamedIn(completed, s.ledger.entries[i].stepId) <==>
                  i == k || NamedIn(rest, s.ledger.entries[i].stepId)
        {
          NamedOneMore(completed, s.ledger.entries[i].stepId);
          SameIndex(s.ledger.entries, i, k);
        }
      }
    }
  }

  lemma NamedOneMore(completed: seq<SagaStep>, stepId: string)
    requires completed != []
    ensures var n := |completed| - 1;
      NamedIn(completed, stepId) <==> completed[n].stepId == stepId || NamedIn(completed[..n], stepId)
  {
    var n := |completed| - 1;
    if NamedIn(completed[..n], stepId) {
      var j :| 0 <= j < n && completed[..n][j].stepId == stepId;
      assert completed[j].stepId == stepId;
    }
    if j :| 0 <= j < n && completed[j].stepId == stepId {
      assert completed[..n][j].stepId == stepId;
    }
  }

  lemma SameIndex(entries: seq<Entry>, i: nat, k: nat)
    requires DistinctIds(entries) && i < |entries| && k < |entries|
    ensures entries[i].stepId == entries[k].stepId <==> i == k
  {
  }

  /** So it is true when everything was accounted for. */
  lemma RollbackReportsTruly<W>(env: Env<W>, s: Sys<W>, completed: seq<SagaStep>)
    requires DistinctIds(s.ledger.entries) && AccountedIn(s.ledger.entries, completed)
    ensures var t := CompensateAll(env, s, completed);
      t.end == Restored ==> AllSettled(t.s.ledger.entries) && DistinctIds(t.s.ledger.entries)
  {
    hide CompensateAll, DistinctIds, NamedIn;
    RollbackSettles(env, s, completed);
  }

  lemma AbandonReportsTruly<W>(env: Env<W>, s: Sys<W>)
    requires Accounted(s)
    ensures var t := Abandon(env, s); t.end == Restored ==> AllSettled(t.s.ledger.entries) && DistinctIds(t.s.ledger.entries)
  {
    hide CompensateAll, DistinctIds, AccountedIn;
    RollbackReportsTruly(env, WithStatus(s, SagaStatus.Compensating), Completed(s));
  }

  // ── One call, in any environment ──────────────────────────────────

  /** During a step: everything but its own record is accounted for. */
  ghost predicate AccountedBut<W>(s: Sys<W>, stepId: string) {
    && s.saga.Some? && DistinctIds(s.ledger.entries)
    && forall i | 0 <= i < |s.ledger.entries| && s.ledger.entries[i].stepId != stepId ::
         Settled(s.ledger.entries[i].state) || NamedIn(Completed(s), s.ledger.entries[i].stepId)
  }

  /** What an operation may leave: a true report, or a state in which everything is accounted for. */
  ghost predicate TrueReport<W>(t: Turn<W>) {
    && (t.end == Restored ==> AllSettled(t.s.ledger.entries))
    && (t.end in {Proceed, Paused, AllCommitted, Restored} ==> Accounted(t.s))
  }

  lemma SettledIsAccounted<W>(s: Sys<W>)
    requires AllSettled(s.ledger.entries) && DistinctIds(s.ledger.entries)
    ensures Accounted(s)
  {
  }

  lemma AbandonTrue<W>(env: Env<W>, s: Sys<W>)
    requires Accounted(s)
    ensures TrueReport(Abandon(env, s))
  {
    hide Abandon, Accounted, AllSettled, DistinctIds;
    AbandonNeverPauses(env, s);
    AbandonReportsTruly(env, s);
    if Abandon(env, s).end == Restored {
      SettledIsAccounted(Abandon(env, s).s);
    }
  }

  /** Quarantine reports no rollback. */
  lemma AmbiguousTrue<W>(env: Env<W>, s: Sys<W>, step: SagaStep)
    ensures TrueReport(AbandonAmbiguous(env, s, step))
  {
    hide Abandon, Accounted, AllSettled;
    AbandonNeverPauses(env, s);
  }

  /** A move of the step's own record changes nothing about the others. */
  lemma MoveAccounted<W>(s: Sys<W>, stepId: string, site: Site, error: string)
    requires AccountedBut(s, stepId)
    ensures var moved := MoveAt(s.ledger, stepId, site, error);
      moved.Some? ==>
        && AccountedBut(s.(ledger := moved.value), stepId)
        && (Settled(Target(site)) ==> Accounted(s.(ledger := moved.value)))
  {
    var moved := MoveAt(s.ledger, stepId, site, error);
    if moved.Some? {
      var k, s' := IndexOf(s.ledger.entries, stepId), s.(ledger := moved.value);
      IndexOfUnique(s.ledger.entries, k);
      assert forall i | 0 <= i < |s.ledger.entries| && i != k :: s'.ledger.entries[i] == s.ledger.entries[i];
    }
  }

  /** Once the step is on the completed list everything is accounted for. */
  lemma AppendAccounts<W>(s: Sys<W>, step: SagaStep)
    requires AccountedBut(s, step.stepId)
    ensures Accounted(AppendCompleted(s, step)) && AppendCompleted(s, step).ledger == s.ledger
  {
    var s' := AppendCompleted(s, step);
    forall id
      ensures NamedIn(Completed(s), id) ==> NamedIn(Completed(s'), id)
      ensures NamedIn(Completed(s'), step.stepId)
    {
      assert Completed(s')[|Completed(s)|].stepId == step.stepId;
      if NamedIn(Completed(s), id) {
        var j :| 0 <= j < |Completed(s)| && Completed(s)[j].stepId == id;
        assert Completed(s')[j] == Completed(s)[j];
      }
    }
  }

  lemma CommitAccounted<W>(s: Sys<W>, step: SagaStep)
    requires Accounted(s)
    ensures var committed := CommitEffect(s.ledger, step.stepId, step.idempotencyKey);
      committed.Some? && NamedIn(Completed(s), step.stepId) ==> Accounted(s.(ledger := committed.value))
  {
  }

  lemma NamedAtEnd<W>(s: Sys<W>, step: SagaStep)
    requires s.saga.Some?
    ensures NamedIn(Completed(AppendCompleted(s, step)), step.stepId)
  {
    assert Completed(AppendCompleted(s, step))[|Completed(s)|].stepId == step.stepId;
  }

  lemma SameBooksAccounted<W>(s: Sys<W>, s': Sys<W>, stepId: string)
    requires s'.ledger.entries == s.ledger.entries && s'.saga.Some? == s.saga.Some? && Completed(s') == Completed(s)
    ensures Accounted(s') == Accounted(s) && AccountedBut(s', stepId) == AccountedBut(s, stepId)
  {
  }

  lemma RecordTrue<W>(env: Env<W>, s: Sys<W>, step: SagaStep)
    requires AccountedBut(s, step.stepId) && s.saga.Some?
    ensures TrueReport(RecordStep(env, s, step))
  {
    hide MoveAt, CommitEffect, Abandon, AbandonAmbiguous, AccountedBut, Accounted, AppendCompleted, AllSettled, NamedIn;
    AmbiguousTrue(env, s, step);
    MoveAccounted(s, step.stepId, RecordApplied, "");
    var applied := MoveAt(s.ledger, step.stepId, RecordApplied);
    if applied.Some? {
      var s1 := s.(ledger := applied.value);
      SameBooksAccounted(s1, Tick(s1), step.stepId);
      var s2 := AppendCompleted(Tick(s1), step);
      AppendAccounts(Tick(s1), step);
      NamedAtEnd(Tick(s1), step);
      AbandonTrue(env, s2);
      CommitAccounted(s2, step);
      var committed := CommitEffect(s2.ledger, step.stepId, step.idempotencyKey);
      if committed.Some? {
        var s3 := s2.(ledger := committed.value);
        SameBooksAccounted(s3, Tick(s3), step.stepId);
      }
    }
  }

  lemma CallTrue<W>(env: Env<W>, s: Sys<W>, step: SagaStep)
    requires AccountedBut(s, step.stepId) && s.saga.Some?
    ensures TrueReport(CallStep(env, s, step))
  {
    hide MoveAt, RecordStep, Abandon, AbandonAmbiguous, AccountedBut, Accounted, AllSettled;
    var a := Execute(env, Tick(s), step.stepId, step.action);
    assert a.s.ledger == s.ledger && a.s.saga == s.saga;
    hide Execute;
    SameBooksAccounted(s, Tick(a.s), step.stepId);
    AmbiguousTrue(env, a.s, step);
    AmbiguousTrue(env, Tick(a.s), step);
    MoveAccounted(Tick(a.s), step.stepId, RejectCall, CALL_FAILED);
    var aborted := MoveAt(a.s.ledger, step.stepId, RejectCall, CALL_FAILED);
    if aborted.Some? {
      AbandonTrue(env, Tick(a.s).(ledger := aborted.value));
    }
    RecordTrue(env, Tick(a.s), step);
  }

  lemma PrepareAccounted<W>(s: Sys<W>, step: SagaStep)
    requires Accounted(s) && s.saga.Some?
    ensures var prepared := PrepareEffect(s.ledger, step);
      prepared.Some? ==>
        var s1 := s.(ledger := prepared.value);
        && AccountedBut(s1, step.stepId)
        && (Accounted(s1) || MoveAt(s1.ledger, step.stepId, Claim).Some?)
  {
    var prepared := PrepareEffect(s.ledger, step);
    var n := |s.ledger.entries|;
    if prepared.Some? && IndexOf(s.ledger.entries, step.stepId) == n {
      var l := prepared.value;
      assert l.entries[n] == NewEntry(step) && forall i | 0 <= i < n :: l.entries[i] == s.ledger.entries[i];
      assert IndexOf(l.entries, step.stepId) == n;
    }
  }

  lemma PrepareTrue<W>(env: Env<W>, s: Sys<W>, step: SagaStep)
    requires Accounted(s) && s.saga.Some?
    ensures TrueReport(PrepareStep(env, s, step))
  {
    hide MoveAt, PrepareEffect, CallStep, Abandon, AccountedBut, Accounted, AllSettled;
    AbandonTrue(env, s);
    PrepareAccounted(s, step);
    var prepared := PrepareEffect(s.ledger, step);
    if prepared.Some? {
      var s1 := s.(ledger := prepared.value);
      SameBooksAccounted(s1, Tick(s1), step.stepId);
      if Accounted(s1) {
        AbandonTrue(env, Tick(s1));
      }
      MoveAccounted(Tick(s1), step.stepId, Claim, "");
      var claimed := MoveAt(s1.ledger, step.stepId, Claim);
      if claimed.Some? {
        CallTrue(env, Tick(s1).(ledger := claimed.value), step);
      }
    }
  }

  lemma AttemptTrue<W>(env: Env<W>, s: Sys<W>, steps: seq<SagaStep>)
    requires Accounted(s) && s.saga.Some? && steps != []
    ensures TrueReport(AttemptStep(env, s, steps))
  {
    hide PrepareStep, Abandon, Accounted, AllSettled;
    SameBooksAccounted(s, Tick(s), "");
    SameBooksAccounted(s, Pause(Tick(s), steps).s, "");
    AbandonTrue(env, Tick(s));
    PrepareTrue(env, Tick(s), steps[0]);
  }

  /** A call that finds everything accounted for never falsely reports a rollback, whatever the environment does. */
  lemma {:induction false} ExecuteReportsTruly<W>(env: Env<W>, s: Sys<W>, steps: seq<SagaStep>)
    requires Accounted(s) && s.saga.Some?
    ensures TrueReport(ExecuteSteps(env, s, steps))
    decreases |steps|
  {
    hide AttemptStep, Accounted, AllSettled;
    if steps == [] {
      SameBooksAccounted(s, ExecuteSteps(env, s, steps).s, "");
    } else if AlreadyCommitted(s.ledger, steps[0].idempotencyKey) {
      ExecuteReportsTruly(env, s, steps[1..]);
    } else {
      AttemptTrue(env, s, steps);
      var t := AttemptStep(env, s, steps);
      if t.end == Proceed {
        ExecuteReportsTruly(env, t.s, steps[1..]);
      }
    }
  }

  // ── Exactly when ──────────────────────────────────────────────────

  /** The compensations of these steps, the last one first, are accepted from this world on. */
  ghost predicate UndoPath<W>(env: Env<W>, world: W, completed: seq<SagaStep>)
    decreases |completed|
  {
    completed != [] ==>
      var n := |completed| - 1;
      var target := env.undo(completed[n].compensation, world);
      target.Some? && UndoPath(env, target.value, completed[..n])
  }

  ghost predicate DistinctSteps(completed: seq<SagaStep>) {
    forall i, j | 0 <= i < j < |completed| :: completed[i].stepId != completed[j].stepId
  }

  ghost predicate RecordsCanUndo(entries: seq<Entry>, completed: seq<SagaStep>) {
    forall j | 0 <= j < |completed| ::
      var i := IndexOf(entries, completed[j].stepId);
      i < |entries| && CanUndo(entries[i].state)
  }

  /** The completed steps can be undone. */
  ghost predicate Undoable<W>(env: Env<W>, s: Sys<W>) {
    && UndoPath(env, s.world, Completed(s)) && DistinctSteps(Completed(s))
    && RecordsCanUndo(s.ledger.entries, Completed(s))
  }

  /** The gate denies at this instant; nothing else goes wrong. */
  function DeniedAt(instant: nat): nat -> Choice {
    n => Choice(false, if n == instant then Deny else Admit, true, Succeed, Succeed, PLAIN_TRUTH)
  }

  /** The process lives on and compensation calls that are accepted succeed. */
  ghost predicate Steady<W(!new)>(env: Env<W>) {
    forall n: nat :: !env.choice(n).crash && env.choice(n).undoCall == Succeed
  }

  /** The world after the compensations of these steps, the last one first. */
  function UndoneWorld<W>(env: Env<W>, world: W, completed: seq<SagaStep>): W
    requires UndoPath(env, world, completed)
    decreases |completed|
  {
    if completed == [] then world
    else
      var n := |completed| - 1;
      UndoneWorld(env, env.undo(completed[n].compensation, world).value, completed[..n])
  }

  lemma CallUndoes<W(!new)>(env: Env<W>, s: Sys<W>, k: nat, step: SagaStep)
    requires Steady(env) && env.undo(step.compensation, s.world).Some?
    requires DistinctIds(s.ledger.entries) && k < |s.ledger.entries| && s.ledger.entries[k].stepId == step.stepId
    requires s.ledger.entries[k].state == EffectState.Compensating
    ensures var t := CompensationCall(env, s, step);
      t.end == Proceed && t.s.world == env.undo(step.compensation, s.world).value
  {
    hide MoveAt, HandleCompensationFailure, DistinctIds;
    MoveAtIs(s.ledger, k, RecordCompensated, "");
  }

  lemma StepUndoes<W(!new)>(env: Env<W>, s: Sys<W>, step: SagaStep)
    requires Steady(env) && env.undo(step.compensation, s.world).Some?
    requires DistinctIds(s.ledger.entries)
    requires var k := IndexOf(s.ledger.entries, step.stepId); k < |s.ledger.entries| && CanUndo(s.ledger.entries[k].state)
    ensures var t := CompensateStep(env, s, step);
      t.end == Proceed && t.s.world == env.undo(step.compensation, s.world).value
  {
    hide MoveAt, CompensationCall, HandleCompensationFailure, DistinctIds, Steady;
    var k := IndexOf(s.ledger.entries, step.stepId);
    MoveAtIs(s.ledger, k, BeginCompensation, "");
    if s.ledger.entries[k].state in Expected(BeginCompensation) {
      var s1 := s.(ledger := SetState(s.ledger, k, EffectState.Compensating, ""));
      OnlyChangedIds(s, s1, k);
      CallUndoes(env, s1, k, step);
    } else {
      CallUndoes(env, s, k, step);
    }
  }

  lemma {:induction false} RollbackUndoes<W(!new)>(env: Env<W>, s: Sys<W>, completed: seq<SagaStep>)
    requires Steady(env) && DistinctIds(s.ledger.entries)
    requires UndoPath(env, s.world, completed) && DistinctSteps(completed) && RecordsCanUndo(s.ledger.entries, completed)
    ensures var t := CompensateAll(env, s, completed);
      t.end == Restored && t.s.world == UndoneWorld(env, s.world, completed)
    decreases |completed|
  {
    hide CompensateStep, DistinctIds, Steady;
    if completed != [] {
      var n := |completed| - 1;
      var step, rest := completed[n], completed[..n];
      StepUndoes(env, s, step);
      CompensateStepChanges(env, s, step);
      var t := CompensateStep(env, s, step);
      var k := IndexOf(s.ledger.entries, step.stepId);
      OnlyChangedIds(s, t.s, k);
      forall j | 0 <= j < |rest|
        ensures var i := IndexOf(t.s.ledger.entries, rest[j].stepId);
          i < |t.s.ledger.entries| && CanUndo(t.s.ledger.entries[i].state)
      {
        assert rest[j] == completed[j];
      }
      RollbackUndoes(env, t.s, rest);
    }
  }

  ghost predicate SomeUnpublished(l: Ledger, steps: seq<SagaStep>) {
    exists i :: 0 <= i < |steps| && !AlreadyCommitted(l, steps[i].idempotencyKey)
  }

  /** The gate denies the first step that is not skipped: the call is the rollback of what was completed. */
  lemma {:induction false} DeniedCall<W>(env: Env<W>, s: Sys<W>, steps: seq<SagaStep>)
    requires s.saga.Some? && SomeUnpublished(s.ledger, steps) && env.choice == DeniedAt(s.clock)
    ensures ExecuteSteps(env, s, steps) == Abandon(env, Tick(s))
    decreases |steps|
  {
    hide Abandon, PrepareStep, Pause, AlreadyCommitted;
    AbandonNeverPauses(env, Tick(s));
    if AlreadyCommitted(s.ledger, steps[0].idempotencyKey) {
      var i :| 0 <= i < |steps| && !AlreadyCommitted(s.ledger, steps[i].idempotencyKey);
      assert steps[1..][i - 1] == steps[i];
      DeniedCall(env, s, steps[1..]);
    }
  }

  lemma DeniedIsSteady<W(!new)>(env: Env<W>, instant: nat)
    requires env.choice == DeniedAt(instant)
    ensures Steady(env)
  {
  }

  /** A record that is neither settled nor remembered survives such a call, which reports a rollback all the same. */
  lemma DeniedCallReportsFalsely<W(!new)>(env: Env<W>, s: Sys<W>, steps: seq<SagaStep>)
    requires s.saga.Some? && DistinctIds(s.ledger.entries) && !Accounted(s) && Undoable(env, s)
    requires SomeUnpublished(s.ledger, steps)
    ensures var t := ExecuteSteps(env.(choice := DeniedAt(s.clock)), s, steps);
      t.end == Restored && t.s.ledger.status == Some(SagaStatus.RolledBack) && !AllSettled(t.s.ledger.entries)
  {
    hide CompensateAll, DistinctIds, DistinctSteps, RecordsCanUndo, SomeUnpublished, ExecuteSteps, DeniedAt, NamedIn, UndoPath;
    var env', completed := env.(choice := DeniedAt(s.clock)), Completed(s);
    assert Steady(env') by { DeniedIsSteady(env', s.clock); }
    DeniedCall(env', s, steps);
    var s1 := WithStatus(Tick(s), SagaStatus.Compensating);
    UndoPathSameTools(env, env', s.world, completed);
    RollbackUndoes(env', s1, completed);
    RollbackSettles(env', s1, completed);
    RestoredStatus(env', s1, completed);
    var t := CompensateAll(env', s1, completed);
    var i :| 0 <= i < |s.ledger.entries| && !Settled(s.ledger.entries[i].state)
      && !NamedIn(completed, s.ledger.entries[i].stepId);
    assert t.s.ledger.entries[i] == s.ledger.entries[i];
  }

  lemma {:induction false} UndoPathSameTools<W>(env: Env<W>, env': Env<W>, world: W, completed: seq<SagaStep>)
    requires env'.undo == env.undo && UndoPath(env, world, completed)
    ensures UndoPath(env', world, completed)
    decreases |completed|
  {
    if completed != [] {
      var n := |completed| - 1;
      UndoPathSameTools(env, env', env.undo(completed[n].compensation, world).value, completed[..n]);
    }
  }

  lemma {:induction false} RestoredStatus<W>(env: Env<W>, s: Sys<W>, completed: seq<SagaStep>)
    ensures var t := CompensateAll(env, s, completed);
      t.end == Restored ==> t.s.ledger.status == Some(SagaStatus.RolledBack)
    decreases |completed|
  {
    hide CompensateStep;
    if completed != [] && CompensateStep(env, s, completed[|completed| - 1]).end == Proceed {
      RestoredStatus(env, CompensateStep(env, s, completed[|completed| - 1]).s, completed[..|completed| - 1]);
    } else if completed != [] {
      CompensateStepEnds(env, s, completed[|completed| - 1]);
    }
  }

  /**
   When the completed steps can be undone and some step is not skipped, the report ROLLED_BACK of a
   call is true whatever happens during it if and only if, before it, every record of the journal
   was settled or belonged to a step the process remembers as completed.
   */
  lemma ReportIsTrueIff<W(!new)>(env: Env<W>, s: Sys<W>, steps: seq<SagaStep>)
    requires s.saga.Some? && DistinctIds(s.ledger.entries) && Undoable(env, s) && SomeUnpublished(s.ledger, steps)
    ensures AccountedIn(s.ledger.entries, Completed(s)) <==>
      forall choice ::
        var t := ExecuteSteps(env.(choice := choice), s, steps);
        t.end == Restored ==> AllSettled(t.s.ledger.entries)
  {
    hide ExecuteSteps, Undoable, SomeUnpublished, DistinctIds, AccountedIn, AllSettled;
    if AccountedIn(s.ledger.entries, Completed(s)) {
      forall choice
        ensures var t := ExecuteSteps(env.(choice := choice), s, steps);
          t.end == Restored ==> AllSettled(t.s.ledger.entries)
      {
        ExecuteReportsTruly(env.(choice := choice), s, steps);
      }
    } else {
      DeniedCallReportsFalsely(env, s, steps);
    }
  }

  // ── The run in which the report is false ──────────────────────────

  function UnkeyedStep(stepId: string): SagaStep {
    var payload := ActionPayload("NOOP", map[]);
    SagaStep(stepId, "", payload, payload, "", PENDING, "", None, false, false)
  }

  /** A counter whose call raises after it took effect, and a gate that denies the next step. */
  function CounterRaising(): Env<int> {
    Env((action, count: int) => Some(count + 1), (compensation, count: int) => Some(count - 1), false, false, false,
        n => Choice(false, if n < 4 then Admit else Deny, true, Raise(true), Succeed, PLAIN_TRUTH))
  }

  /** The first call: step a raises with its effect in force, and nothing was completed. */
  lemma FirstRaises(s: Sys<int>)
    requires s.saga.Some? && Completed(s) == [] && s.clock == 0 && s.ledger.entries == [] && s.world == 0
    ensures var t := ExecuteSaga(CounterRaising(), s, [UnkeyedStep("a")]);
      && t.end == Quarantined && Completed(t.s) == [] && t.s.saga.Some? && t.s.clock == 4 && t.s.world == 1
      && t.s.ledger.status == Some(SagaStatus.CompensationFailed)
      && |t.s.ledger.entries| == 1 && t.s.ledger.entries[0].state == EffectState.Ambiguous
  {
    var env, step := CounterRaising(), UnkeyedStep("a");
    NewClaim(s.ledger, step);
    var l := WithClaim(s.ledger, step);
    hide PrepareEffect, WithNew, WithClaim, RecordStep;
    assert |l.entries| == 1 && l.entries[0] == NewEntry(step).(state := EffectState.Executing);
    var s4 := Tick(Tick(Tick(Tick(s)))).(ledger := l, world := 1, runs := s.runs + multiset{"a"});
    assert PrepareStep(env, Tick(s), step) == AbandonAmbiguous(env, s4, step);
    var x := Abandon(env, s4).s;
    assert x.ledger.entries == l.entries;
    MoveAtIs(x.ledger, 0, RecordRaised, CALL_RAISED);
    assert AttemptStep(env, s, [step]) == AbandonAmbiguous(env, s4, step);
  }

  /** The second call: the gate denies step b, and the rollback of nothing is reported. */
  lemma SecondDenied(s: Sys<int>)
    requires s.saga.Some? && Completed(s) == [] && s.clock == 4
    ensures var t := ExecuteSaga(CounterRaising(), s, [UnkeyedStep("b")]);
      && t.end == Restored && t.s.ledger.entries == s.ledger.entries && t.s.world == s.world
      && t.s.ledger.status == Some(SagaStatus.RolledBack)
  {
    hide PrepareStep, Pause;
    assert AttemptStep(CounterRaising(), s, [UnkeyedStep("b")]) == Abandon(CounterRaising(), Tick(s));
  }

  /**
   Two calls from an empty journal: the first raises after its effect took place, the second is
   denied by the gate. The saga is reported as ROLLED_BACK, though its one record is AMBIGUOUS and the
   effect in force; and recovery, which skips sagas so reported, never looks at it again.
   */
  lemma ReportedRollbackIsFalse()
    ensures var env, start := CounterRaising(), StartOp("", "", 0.0);
      var s: Sys<int> := Sys(EMPTY_LEDGER, None, 0, 0, multiset{}, multiset{});
      var end := Run(env, s, [start, ExecuteOp([UnkeyedStep("a")]), ExecuteOp([UnkeyedStep("b")])]);
      && end.ledger.status == Some(SagaStatus.RolledBack)
      && !AllSettled(end.ledger.entries) && end.world == 1
      && Recover(env, end) == Turn(end.(saga := None), Proceed)
  {
    hide ExecuteSaga, UnkeyedStep, CounterRaising, RecoverEffects;
    var env, start, a, b := CounterRaising(), StartOp("", "", 0.0), ExecuteOp([UnkeyedStep("a")]), ExecuteOp([UnkeyedStep("b")]);
    var s: Sys<int> := Sys(EMPTY_LEDGER, None, 0, 0, multiset{}, multiset{});
    var s1 := Start(s, "", "", 0.0).s;
    FirstRaises(s1);
    var s2 := AfterTurn(Perform(env, s1, a));
    SecondDenied(s2);
    var s3 := AfterTurn(Perform(env, s2, b));
    assert Run(env, s, [start, a, b]) == Run(env, s1, [a, b]) by { assert [start, a, b][1..] == [a, b]; }
    assert Run(env, s1, [a, b]) == Run(env, s2, [b]) by { assert [a, b][1..] == [b]; }
    assert Run(env, s2, [b]) == s3 by { assert [b][1..] == []; }
    assert !Settled(s3.ledger.entries[0].state);
  }
}
