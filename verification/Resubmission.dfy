/**
 Calling a saga again: resubmitted steps are skipped by their keys, and a second call runs under
 the durable status the first one left, which decides whether a crash in it will be recovered.
 */
module Resubmission {
  import opened Prelude
  import opened Sagas
  import opened Journal
  import opened Environment
  import opened CoordinatorSpec
  import opened Runs
  import opened Restoration
  import opened ForwardShape
  import opened CrashRecovery

  // ── Resubmission ──────────────────────────────────────────────────

  ghost predicate AllKeyed(steps: seq<SagaStep>) {
    forall i | 0 <= i < |steps| :: Keyed(steps[i].idempotencyKey)
  }

  ghost predicate AllPublished(l: Ledger, steps: seq<SagaStep>) {
    forall i | 0 <= i < |steps| :: AlreadyCommitted(l, steps[i].idempotencyKey)
  }

  lemma PublishedStable(keys: set<string>)
    ensures Stable((l: Ledger) => keys <= l.published)
  {
  }

  lemma RecordStepPublishes<W>(env: Env<W>, s: Sys<W>, step: SagaStep)
    requires s.saga.Some? && Keyed(step.idempotencyKey)
    ensures var t := RecordStep(env, s, step); t.end == Proceed ==> AlreadyCommitted(t.s.ledger, step.idempotencyKey)
  {
    hide IndexOf, Abandon;
    AbandonNeverPauses(env, s);
    var applied := MoveAt(s.ledger, step.stepId, RecordApplied);
    if applied.Some? {
      AbandonNeverPauses(env, AppendCompleted(Tick(s.(ledger := applied.value)), step));
    }
  }

  /** A step only proceeds after its key was published. */
  lemma StepPublishes<W>(env: Env<W>, s: Sys<W>, step: SagaStep)
    requires s.saga.Some? && Keyed(step.idempotencyKey)
    ensures var t := PrepareStep(env, s, step); t.end == Proceed ==> AlreadyCommitted(t.s.ledger, step.idempotencyKey)
  {
    hide Abandon, CallStep, MoveAt, PrepareEffect, AlreadyCommitted;
    forall x: Sys<W>
      ensures Abandon(env, x).end in {Restored, Crashed, RollbackFailed}
    {
      AbandonNeverPauses(env, x);
    }
    forall x: Sys<W> | x.saga.Some?
      ensures var t := CallStep(env, x, step);
        t.end == Proceed ==> AlreadyCommitted(t.s.ledger, step.idempotencyKey)
    {
      CallStepPublishes(env, x, step);
    }
  }

  lemma CallStepPublishes<W>(env: Env<W>, s: Sys<W>, step: SagaStep)
    requires s.saga.Some? && Keyed(step.idempotencyKey)
    ensures var t := CallStep(env, s, step); t.end == Proceed ==> AlreadyCommitted(t.s.ledger, step.idempotencyKey)
  {
    hide Abandon, AbandonAmbiguous, RecordStep, Execute, MoveAt, AlreadyCommitted, Keyed;
    forall x: Sys<W>
      ensures Abandon(env, x).end != Proceed && AbandonAmbiguous(env, x, step).end != Proceed
    {
      AbandonNeverPauses(env, x);
      AmbiguousStops(env, x, step);
    }
    forall x: Sys<W> | x.saga.Some?
      ensures var t := RecordStep(env, x, step);
        t.end == Proceed ==> AlreadyCommitted(t.s.ledger, step.idempotencyKey)
    {
      RecordStepPublishes(env, x, step);
    }
  }

  lemma AmbiguousStops<W>(env: Env<W>, s: Sys<W>, step: SagaStep)
    ensures AbandonAmbiguous(env, s, step).end != Proceed
  {
    hide Abandon;
    AbandonNeverPauses(env, s);
  }

  lemma AttemptPublishes<W>(env: Env<W>, s: Sys<W>, steps: seq<SagaStep>)
    requires s.saga.Some? && steps != [] && Keyed(steps[0].idempotencyKey)
    ensures var t := AttemptStep(env, s, steps);
      t.end != AllCommitted && (t.end == Proceed ==> AlreadyCommitted(t.s.ledger, steps[0].idempotencyKey))
  {
    hide PrepareStep, Abandon, Pause;
    AbandonNeverPauses(env, Tick(s));
    PrepareNeverPauses(env, Tick(s), steps[0]);
    StepPublishes(env, Tick(s), steps[0]);
    assert Pause(Tick(s), steps).end == Paused by { PauseEnds(Tick(s), steps); }
  }

  lemma PauseEnds<W>(s: Sys<W>, steps: seq<SagaStep>)
    requires s.saga.Some? && steps != []
    ensures Pause(s, steps).end == Paused
  {
  }

  lemma PublishedGrows<W>(env: Env<W>, s: Sys<W>, steps: seq<SagaStep>, key: string)
    requires s.saga.Some? && key in s.ledger.published
    ensures key in ExecuteSteps(env, s, steps).s.ledger.published
  {
    hide ExecuteSteps;
    PublishedStable({key});
    ExecuteStepsKeeps(env, s, steps, (l: Ledger) => {key} <= l.published);
  }

  lemma {:induction false} CommittedListIsPublished<W>(env: Env<W>, s: Sys<W>, steps: seq<SagaStep>)
    requires s.saga.Some? && AllKeyed(steps)
    ensures var t := ExecuteSteps(env, s, steps); t.end == AllCommitted ==> AllPublished(t.s.ledger, steps)
    decreases |steps|
  {
    if steps != [] {
      hide AttemptStep;
      var key := steps[0].idempotencyKey;
      AttemptPublishes(env, s, steps);
      var t := if AlreadyCommitted(s.ledger, key) then Turn(s, Proceed) else AttemptStep(env, s, steps);
      if t.end == Proceed {
        CommittedListIsPublished(env, t.s, steps[1..]);
        PublishedGrows(env, t.s, steps[1..], key.value);
        var u := ExecuteSteps(env, t.s, steps[1..]);
        assert ExecuteSteps(env, s, steps) == u;
        hide ExecuteSteps;
        if u.end == AllCommitted {
          PublishedCons(u.s.ledger, steps);
        }
      }
    }
  }

  lemma PublishedCons(l: Ledger, steps: seq<SagaStep>)
    requires steps != [] && AllPublished(l, steps[1..]) && AlreadyCommitted(l, steps[0].idempotencyKey)
    ensures AllPublished(l, steps)
  {
    forall i | 0 <= i < |steps|
      ensures AlreadyCommitted(l, steps[i].idempotencyKey)
    {
      if i > 0 {
        assert steps[i] == steps[1..][i - 1];
      }
    }
  }

  lemma {:induction false} PublishedListIsSkipped<W>(env: Env<W>, s: Sys<W>, steps: seq<SagaStep>)
    requires s.saga.Some? && AllPublished(s.ledger, steps)
    ensures ExecuteSteps(env, s, steps) == ExecuteSteps(env, s, [])
    decreases |steps|
  {
    if steps != [] {
      assert AlreadyCommitted(s.ledger, steps[0].idempotencyKey);
      PublishedListIsSkipped(env, s, steps[1..]);
    }
  }

  /** Once a keyed list has committed, submitting it again answers True and changes nothing at all. */
  lemma ResubmissionChangesNothing<W>(env: Env<W>, s: Sys<W>, steps: seq<SagaStep>)
    requires s.saga.Some? && AllKeyed(steps)
    ensures var t := ExecuteSteps(env, s, steps);
      t.end == AllCommitted && t.s.saga.Some? ==> ExecuteSteps(env, t.s, steps) == t
  {
    hide AttemptStep;
    var t := ExecuteSteps(env, s, steps);
    if t.end == AllCommitted {
      CommittedListIsPublished(env, s, steps);
      PublishedListIsSkipped(env, t.s, steps);
      CommittedStatus(env, s, steps);
    }
  }

  lemma {:induction false} CommittedStatus<W>(env: Env<W>, s: Sys<W>, steps: seq<SagaStep>)
    requires s.saga.Some?
    ensures var t := ExecuteSteps(env, s, steps);
      t.end == AllCommitted ==>
        && t.s.saga.Some? && t.s.saga.value.status == SagaStatus.Committed
        && t.s.ledger.status == Some(SagaStatus.Committed)
    decreases |steps|
  {
    if steps != [] {
      hide PrepareStep, Abandon;
      AbandonNeverPauses(env, Tick(s));
      PrepareNeverPauses(env, Tick(s), steps[0]);
      if AlreadyCommitted(s.ledger, steps[0].idempotencyKey) {
        CommittedStatus(env, s, steps[1..]);
      } else if AttemptStep(env, s, steps).end == Proceed {
        CommittedStatus(env, AttemptStep(env, s, steps).s, steps[1..]);
      }
    }
  }

  // ── The status a call runs under ──────────────────────────────────

  /** Everything goes well until the process dies at the given instant. */
  function DiesAt(instant: nat): nat -> Choice {
    n => Choice(n == instant, Admit, true, Succeed, Succeed, PLAIN_TRUTH)
  }

  /** A new step that the gate, the approval rule and the tool let through. */
  ghost predicate Runnable<W>(env: Env<W>, s: Sys<W>, step: SagaStep) {
    && IndexOf(s.ledger.entries, step.stepId) == |s.ledger.entries|
    && !AlreadyCommitted(s.ledger, step.idempotencyKey)
    && (step.requiresApproval ==> step.approved)
    && env.act(step.action, s.world).Some?
  }

  /** If this call dies under these circumstances, the next recovery takes it up. */
  ghost predicate TakenUp<W(!new)>(env: Env<W>, s: Sys<W>, step: SagaStep, choice: nat -> Choice) {
    var env' := env.(choice := choice);
    s.saga.Some? && Truthful(env') && ExecuteSteps(env', s, [step]).end == Crashed ==>
      Recover(env', ExecuteSteps(env', s, [step]).s).end in {Crashed, Restored}
  }

  /** The process dies right after the call: the effect is in force and the status is still the one of the entry. */
  lemma DyingCall<W(!new)>(env: Env<W>, s: Sys<W>, step: SagaStep)
    requires s.saga.Some? && Runnable(env, s, step)
    ensures var env' := env.(choice := DiesAt(s.clock + 4));
      var t := ExecuteSteps(env', s, [step]);
      t.end == Crashed && SameMeta(s, t.s)
  {
    hide Runnable, PrepareStep, Abandon, Pause, IndexOf, AlreadyCommitted;
    var env' := env.(choice := DiesAt(s.clock + 4));
    RunnableTick(env, s, step, env'.choice);
    DyingPrepare(env', Tick(s), step);
    assert AttemptStep(env', s, [step]) == PrepareStep(env', Tick(s), step);
  }

  lemma RunnableTick<W(!new)>(env: Env<W>, s: Sys<W>, step: SagaStep, choice: nat -> Choice)
    requires Runnable(env, s, step)
    ensures Runnable(env.(choice := choice), Tick(s), step)
    ensures !AlreadyCommitted(s.ledger, step.idempotencyKey) && (step.requiresApproval ==> step.approved)
  {
  }

  lemma DyingPrepare<W(!new)>(env: Env<W>, s: Sys<W>, step: SagaStep)
    requires s.saga.Some? && Runnable(env, s, step)
    requires env.choice == DiesAt(s.clock + 3)
    ensures var t := PrepareStep(env, s, step); t.end == Crashed && SameMeta(s, t.s)
  {
    var n := |s.ledger.entries|;
    var l := s.ledger.(entries := s.ledger.entries + [NewEntry(step)]);
    assert s.ledger.entries + [NewEntry(step)] == l.entries;
    assert PrepareEffect(s.ledger, step) == Some(l);
    assert l.entries[n] == NewEntry(step) && IndexOf(l.entries, step.stepId) == n;
    assert MoveAt(l, step.stepId, Claim) == Some(SetState(l, n, EffectState.Executing, ""));
    hide PrepareEffect, MoveAt, CallStep, Abandon, IndexOf;
    var s2 := Tick(s.(ledger := l)).(ledger := SetState(l, n, EffectState.Executing, ""));
    DyingAfter(env, s2, step);
    assert PrepareStep(env, s, step) == CallStep(env, s2, step);
  }

  lemma DyingAfter<W(!new)>(env: Env<W>, s: Sys<W>, step: SagaStep)
    requires s.saga.Some? && env.act(step.action, s.world).Some?
    requires env.choice == DiesAt(s.clock + 2)
    ensures var t := CallStep(env, s, step); t.end == Crashed && SameMeta(s, t.s)
  {
  }

  /**
   A call on a saga whose earlier steps committed is taken up by recovery after every crash if and
   only if the durable status it starts under is a live one. The status COMMITTED, which an earlier
   call left and `execute_saga` does not rewrite, is not.
   */
  lemma CrashIsTakenUpIff<W(!new)>(env: Env<W>, s: Sys<W>, w0: W, step: SagaStep)
    requires Ready(env, s, w0) && Truthful(env) && Runnable(env, s, step)
    requires Invertible(env, step.action, step.compensation)
    ensures Resolvable(s.ledger) <==> forall choice :: TakenUp(env, s, step, choice)
  {
    if Resolvable(s.ledger) {
      forall choice
        ensures TakenUp(env, s, step, choice)
      {
        LiveIsTakenUp(env, s, w0, step, choice);
      }
    } else {
      var choice := DiesAt(s.clock + 4);
      var env' := env.(choice := choice);
      assert s.saga.Some? by { ReadyIsShaped(env, s, w0); }
      hide ExecuteSteps, Ready, Invertible, Runnable;
      DyingCall(env, s, step);
      var t := ExecuteSteps(env', s, [step]);
      assert Truthful(env');
      assert Recover(env', t.s).end in {Proceed, Paused, Denied} by { hide RecoverEffects; }
      assert !TakenUp(env, s, step, choice);
    }
  }

  lemma LiveIsTakenUp<W(!new)>(env: Env<W>, s: Sys<W>, w0: W, step: SagaStep, choice: nat -> Choice)
    requires Ready(env, s, w0) && Resolvable(s.ledger) && Invertible(env, step.action, step.compensation)
    ensures TakenUp(env, s, step, choice)
  {
    var env' := env.(choice := choice);
    if Truthful(env') {
      assert Ready(env', s, w0) by { ReadySameTools(env, env', s, w0); }
      assert Invertibles(env', [step]);
      hide ExecuteSteps, Ready, Invertible, Recover, Recoverable, ReliableUndo, TruthfulResolver, TruthfulCalls,
        Resolvable, Invertibles;
      ReadyIsShaped(env', s, w0);
      ExecuteEnd(env', s, w0, [step]);
      var t := ExecuteSteps(env', s, [step]);
      if t.end == Crashed {
        RecoverEnd(env', t.s, w0);
      }
    }
  }

  lemma {:induction false} ReplaySameTools<W>(env: Env<W>, env': Env<W>, entries: seq<Entry>, m: nat, w0: W)
    requires env'.act == env.act && m <= |entries|
    ensures Replay(env', entries, m, w0) == Replay(env, entries, m, w0)
  {
    if m > 0 {
      ReplaySameTools(env, env', entries, m - 1, w0);
    }
  }

  lemma ReadySameTools<W(!new)>(env: Env<W>, env': Env<W>, s: Sys<W>, w0: W)
    requires Ready(env, s, w0) && env'.act == env.act && env'.undo == env.undo
    ensures Ready(env', s, w0)
  {
    ReplaySameTools(env, env', s.ledger.entries, |s.ledger.entries|, w0);
  }
}
