/**
 What a call does, told by the answers of the environment at each instant and the steps submitted:
 which steps it executes, where it pauses, what stops it, and what each checkpoint leaves.
 */
module Progress {
  import opened Prelude
  import opened Sagas
  import opened Journal
  import opened StepCodec
  import opened Environment
  import opened CoordinatorSpec
  import opened CrashRecovery
  import opened Resubmission
  import opened Claims
  import opened Reports

  // ── The steps a call has to execute ───────────────────────────────

  /** Those whose keys are not published, be it before the call or by an earlier step of the list. */
  function Remaining(published: set<string>, steps: seq<SagaStep>): seq<SagaStep>
    decreases |steps|
  {
    if steps == [] then []
    else
      var key := steps[0].idempotencyKey;
      if Keyed(key) && key.value in published then Remaining(published, steps[1..])
      else [steps[0]] + Remaining(if Keyed(key) then published + {key.value} else published, steps[1..])
  }

  /** The world after these actions, None when one is refused. */
  function ActsOf<W>(env: Env<W>, steps: seq<SagaStep>, world: W): Option<W>
    decreases |steps|
  {
    if steps == [] then Some(world)
    else
      var next := env.act(steps[0].action, world);
      if next.None? then None else ActsOf(env, steps[1..], next.value)
  }

  function KeysOf(steps: seq<SagaStep>): set<string> {
    set i | 0 <= i < |steps| && Keyed(steps[i].idempotencyKey) :: steps[i].idempotencyKey.value
  }

  function StepIds(steps: seq<SagaStep>): multiset<string> {
    if steps == [] then multiset{} else multiset{steps[0].stepId} + StepIds(steps[1..])
  }

  function Marked(steps: seq<SagaStep>): seq<SagaStep> {
    seq(|steps|, i requires 0 <= i < |steps| => steps[i].(status := COMMITTED))
  }

  function CommittedRecord(step: SagaStep): Entry {
    Entry(step.stepId, step.stepName, step.action, step.compensation, step.idempotencyKey, EffectState.Committed, "")
  }

  /** The journal with this step's record committed, in its place if it was there. */
  function WithRecord(entries: seq<Entry>, step: SagaStep): seq<Entry> {
    var k := IndexOf(entries, step.stepId);
    if k == |entries| then entries + [CommittedRecord(step)] else entries[k := CommittedRecord(step)]
  }

  // ── One step that goes through ────────────────────────────────────

  /** Nothing was there under this id, or the very record of this step, registered and never claimed. */
  ghost predicate Free(entries: seq<Entry>, step: SagaStep) {
    var k := IndexOf(entries, step.stepId);
    k == |entries| || entries[k] == CommittedRecord(step).(state := EffectState.Prepared, error := entries[k].error)
  }

  /** x is s after this step was executed: its action carried out once, its record committed, its key published. */
  ghost predicate Executed<W>(env: Env<W>, s: Sys<W>, x: Sys<W>, step: SagaStep) {
    && s.saga.Some? && x.saga.Some?
    && env.act(step.action, s.world) == Some(x.world)
    && x.runs == s.runs + multiset{step.stepId} && x.undos == s.undos
    && Free(s.ledger.entries, step) && x.ledger.entries == WithRecord(s.ledger.entries, step)
    && x.ledger.published == (if Keyed(step.idempotencyKey) then s.ledger.published + {step.idempotencyKey.value}
                              else s.ledger.published)
    && x.saga.value == s.saga.value.(completedSteps := s.saga.value.completedSteps + [step.(status := COMMITTED)])
    && x.ledger.status == s.ledger.status && x.ledger.metadata == s.ledger.metadata
    && x.ledger.deadLetters == s.ledger.deadLetters
  }

  lemma RecordProceeds<W>(env: Env<W>, s: Sys<W>, step: SagaStep)
    requires s.saga.Some? && RecordStep(env, s, step).end == Proceed
    requires var k := IndexOf(s.ledger.entries, step.stepId);
      k < |s.ledger.entries| && s.ledger.entries[k] == CommittedRecord(step).(state := EffectState.Executing)
    ensures var x, k := RecordStep(env, s, step).s, IndexOf(s.ledger.entries, step.stepId);
      && x.saga.Some? && x.world == s.world && x.runs == s.runs && x.undos == s.undos
      && x.ledger.entries == s.ledger.entries[k := CommittedRecord(step)]
      && x.ledger.published == (if Keyed(step.idempotencyKey) then s.ledger.published + {step.idempotencyKey.value}
                                else s.ledger.published)
      && x.saga.value == s.saga.value.(completedSteps := s.saga.value.completedSteps + [step.(status := COMMITTED)])
      && x.ledger.status == s.ledger.status && x.ledger.metadata == s.ledger.metadata
      && x.ledger.deadLetters == s.ledger.deadLetters
  {
    var k := IndexOf(s.ledger.entries, step.stepId);
    var l1 := SetState(s.ledger, k, EffectState.Applied, "");
    assert MoveAt(s.ledger, step.stepId, RecordApplied) == Some(l1);
    IndexOfSameIds(s.ledger.entries, l1.entries, step.stepId);
    var l2 := SetState(l1, k, EffectState.Committed, "");
    assert l2.entries == s.ledger.entries[k := CommittedRecord(step)];
    var s2 := AppendCompleted(Tick(s.(ledger := l1)), step);
    assert CommitEffect(l1, step.stepId, step.idempotencyKey) ==
      Some(if Keyed(step.idempotencyKey) then l2.(published := l1.published + {step.idempotencyKey.value}) else l2);
    hide MoveAt, CommitEffect, IndexOf, Abandon, AbandonAmbiguous;
  }

  lemma CallProceeds<W>(env: Env<W>, s: Sys<W>, step: SagaStep)
    requires s.saga.Some? && CallStep(env, s, step).end == Proceed
    ensures !CrashesHere(env, s)
    ensures var w := env.act(step.action, s.world);
      w.Some?
      && var x := Tick(Tick(Tick(s))).(world := w.value, runs := s.runs + multiset{step.stepId});
         CallStep(env, s, step) == RecordStep(env, x, step)
  {
    hide RecordStep, Abandon, AbandonAmbiguous, MoveAt;
    forall x: Sys<W>
      ensures Abandon(env, x).end != Proceed && AbandonAmbiguous(env, x, step).end != Proceed
    {
      AbandonNeverProceeds(env, x, step);
    }
  }

  lemma AbandonNeverProceeds<W>(env: Env<W>, s: Sys<W>, step: SagaStep)
    ensures Abandon(env, s).end != Proceed && AbandonAmbiguous(env, s, step).end != Proceed
  {
    hide Abandon;
    AbandonNeverPauses(env, s);
  }

  /** Registration and claim of a step that got as far. */
  lemma ClaimedIs(l: Ledger, step: SagaStep)
    ensures var prepared := PrepareEffect(l, step);
      prepared.Some? ==>
        var claimed := MoveAt(prepared.value, step.stepId, Claim);
        claimed.Some? ==>
          var l' := claimed.value;
          var k := IndexOf(l'.entries, step.stepId);
          && Free(l.entries, step) && k == IndexOf(l.entries, step.stepId) < |l'.entries|
          && l'.entries[k] == CommittedRecord(step).(state := EffectState.Executing)
          && l'.entries[k := CommittedRecord(step)] == WithRecord(l.entries, step)
          && l'.published == l.published && l'.status == l.status && l'.metadata == l.metadata
          && l'.deadLetters == l.deadLetters
  {
    var prepared := PrepareEffect(l, step);
    if prepared.Some? {
      var m := prepared.value;
      var k := IndexOf(l.entries, step.stepId);
      if k == |l.entries| {
        NewIsLast(l.entries, step);
      }
      var claimed := MoveAt(m, step.stepId, Claim);
      if claimed.Some? {
        IndexOfSameIds(m.entries, claimed.value.entries, step.stepId);
      }
    }
  }

  /** A step that goes on is executed. */
  lemma AttemptProceeds<W>(env: Env<W>, s: Sys<W>, steps: seq<SagaStep>)
    requires s.saga.Some? && steps != [] && AttemptStep(env, s, steps).end == Proceed
    ensures Executed(env, s, AttemptStep(env, s, steps).s, steps[0])
  {
    var step := steps[0];
    AbandonNeverProceeds(env, Tick(s), step);
    ClaimedIs(s.ledger, step);
    var prepared := PrepareEffect(s.ledger, step);
    assert PrepareStep(env, Tick(s), step).end == Proceed by { hide PrepareStep, Abandon; }
    if prepared.Some? {
      AbandonNeverProceeds(env, Tick(Tick(s).(ledger := prepared.value)), step);
    }
    hide Abandon, PrepareEffect, MoveAt, CallStep, WithRecord, Free, IndexOf;
    var s1 := Tick(s).(ledger := prepared.value);
    var claimed := MoveAt(s1.ledger, step.stepId, Claim);
    var s2 := Tick(s1).(ledger := claimed.value);
    assert AttemptStep(env, s, steps) == CallStep(env, s2, step);
    CallProceeds(env, s2, step);
    var x := Tick(Tick(Tick(s2))).(world := env.act(step.action, s2.world).value, runs := s2.runs + multiset{step.stepId});
    hide RecordStep;
    RecordProceeds(env, x, step);
  }

  // ── The steps of a call that go through ───────────────────────────

  function Recorded(entries: seq<Entry>, steps: seq<SagaStep>): seq<Entry>
    decreases |steps|
  {
    if steps == [] then entries else Recorded(WithRecord(entries, steps[0]), steps[1..])
  }

  /** A committed record carries this step's name, action, compensation and key. */
  ghost predicate HasCommitted(entries: seq<Entry>, step: SagaStep) {
    exists k :: 0 <= k < |entries| && entries[k] == CommittedRecord(step)
  }

  ghost predicate HasAll(entries: seq<Entry>, steps: seq<SagaStep>) {
    forall i | 0 <= i < |steps| :: HasCommitted(entries, steps[i])
  }

  /** x is s after these steps were executed, one after the other, each once, and nothing else was done. */
  ghost predicate Done<W>(env: Env<W>, s: Sys<W>, x: Sys<W>, steps: seq<SagaStep>) {
    && s.saga.Some? && x.saga.Some?
    && ActsOf(env, steps, s.world) == Some(x.world)
    && x.runs == s.runs + StepIds(steps) && x.undos == s.undos
    && x.ledger.entries == Recorded(s.ledger.entries, steps) && HasAll(x.ledger.entries, steps)
    && x.ledger.published == s.ledger.published + KeysOf(steps)
    && x.saga.value == s.saga.value.(completedSteps := s.saga.value.completedSteps + Marked(steps))
    && x.ledger.status == s.ledger.status && x.ledger.metadata == s.ledger.metadata
    && x.ledger.deadLetters == s.ledger.deadLetters
  }

  lemma DoneNothing<W>(env: Env<W>, s: Sys<W>)
    requires s.saga.Some?
    ensures Done(env, s, s, [])
  {
    assert s.saga.value.completedSteps + Marked([]) == s.saga.value.completedSteps;
    assert s.ledger.published + KeysOf([]) == s.ledger.published;
  }

  lemma KeysCons(step: SagaStep, steps: seq<SagaStep>)
    ensures KeysOf([step] + steps) ==
      (if Keyed(step.idempotencyKey) then {step.idempotencyKey.value} else {}) + KeysOf(steps)
  {
    var all := [step] + steps;
    assert all[0] == step;
    forall key
      ensures key in KeysOf(all) <==>
        key in (if Keyed(step.idempotencyKey) then {step.idempotencyKey.value} else {}) + KeysOf(steps)
    {
      if i :| 0 <= i < |steps| && Keyed(steps[i].idempotencyKey) && steps[i].idempotencyKey.value == key {
        assert all[i + 1] == steps[i];
      }
      if i :| 0 <= i < |all| && Keyed(all[i].idempotencyKey) && all[i].idempotencyKey.value == key {
        assert i > 0 ==> all[i] == steps[i - 1];
      }
    }
  }

  /** Recording a free step leaves committed records alone. */
  lemma CommittedStays(entries: seq<Entry>, step: SagaStep, other: SagaStep)
    requires Free(entries, step)
    ensures HasCommitted(WithRecord(entries, step), step)
    ensures HasCommitted(entries, other) ==> HasCommitted(WithRecord(entries, step), other)
  {
    var k, b := IndexOf(entries, step.stepId), WithRecord(entries, step);
    assert b[k] == CommittedRecord(step);
    if HasCommitted(entries, other) {
      var j :| 0 <= j < |entries| && entries[j] == CommittedRecord(other);
      assert b[j] == entries[j];
    }
  }

  /** Every one of these steps was free when its turn came. */
  ghost predicate AllFree(entries: seq<Entry>, steps: seq<SagaStep>)
    decreases |steps|
  {
    steps == [] || (Free(entries, steps[0]) && AllFree(WithRecord(entries, steps[0]), steps[1..]))
  }

  lemma {:induction false} CommittedLasts(entries: seq<Entry>, steps: seq<SagaStep>, other: SagaStep)
    requires AllFree(entries, steps) && HasCommitted(entries, other)
    ensures HasCommitted(Recorded(entries, steps), other)
    decreases |steps|
  {
    hide HasCommitted, Free, WithRecord;
    if steps != [] {
      CommittedStays(entries, steps[0], other);
      CommittedLasts(WithRecord(entries, steps[0]), steps[1..], other);
    }
  }

  lemma DoneCons<W>(env: Env<W>, s: Sys<W>, m: Sys<W>, x: Sys<W>, step: SagaStep, rest: seq<SagaStep>)
    requires Executed(env, s, m, step) && Done(env, m, x, rest) && AllFree(m.ledger.entries, rest)
    ensures Done(env, s, x, [step] + rest) && AllFree(s.ledger.entries, [step] + rest)
  {
    hide Free, WithRecord, HasCommitted, Keyed;
    var all := [step] + rest;
    assert all[1..] == rest;
    KeysCons(step, rest);
    CommittedStays(s.ledger.entries, step, step);
    CommittedLasts(m.ledger.entries, rest, step);
    forall i | 0 <= i < |all|
      ensures HasCommitted(x.ledger.entries, all[i])
    {
      assert i > 0 ==> all[i] == rest[i - 1];
    }
    assert Marked(all) == [step.(status := COMMITTED)] + Marked(rest);
    assert s.saga.value.completedSteps + Marked(all) == s.saga.value.completedSteps + [step.(status := COMMITTED)] + Marked(rest);
  }

  /** Before the loop ends it has executed the remaining steps among those it got through. */
  ghost predicate GotTo<W>(env: Env<W>, s: Sys<W>, x: Sys<W>, steps: seq<SagaStep>) {
    var todo := Remaining(s.ledger.published, steps);
    Done(env, s, x, todo) && AllFree(s.ledger.entries, todo)
  }

  lemma GotNowhere<W>(env: Env<W>, s: Sys<W>)
    requires s.saga.Some?
    ensures GotTo(env, s, s, [])
  {
    DoneNothing(env, s);
  }

  lemma GotPastSkipped<W>(env: Env<W>, s: Sys<W>, x: Sys<W>, steps: seq<SagaStep>)
    requires steps != [] && AlreadyCommitted(s.ledger, steps[0].idempotencyKey) && GotTo(env, s, x, steps[1..])
    ensures GotTo(env, s, x, steps)
  {
  }

  lemma GotPastExecuted<W>(env: Env<W>, s: Sys<W>, m: Sys<W>, x: Sys<W>, steps: seq<SagaStep>)
    requires steps != [] && !AlreadyCommitted(s.ledger, steps[0].idempotencyKey)
    requires Executed(env, s, m, steps[0]) && GotTo(env, m, x, steps[1..])
    ensures GotTo(env, s, x, steps)
  {
    hide Done, AllFree, Free, WithRecord;
    DoneCons(env, s, m, x, steps[0], Remaining(m.ledger.published, steps[1..]));
  }

  // ── How a call ends ───────────────────────────────────────────────

  /**
   A call that commits has executed every step of its list whose key was not published, in order,
   each once, and nothing else: the world is the fold of their actions, each has a committed record
   with its action, compensation and key, and the process remembers them as completed.
   */
  lemma {:induction false} CommittedMeansExecuted<W>(env: Env<W>, s: Sys<W>, steps: seq<SagaStep>)
    returns (x: Sys<W>)
    requires s.saga.Some? && ExecuteSteps(env, s, steps).end == AllCommitted
    ensures GotTo(env, s, x, steps) && x.saga.Some?
    ensures ExecuteSteps(env, s, steps).s ==
      x.(ledger := x.ledger.(status := Some(SagaStatus.Committed)), saga := Some(x.saga.value.(status := SagaStatus.Committed)))
    decreases |steps|
  {
    hide AttemptStep, GotTo, Executed;
    if steps == [] {
      GotNowhere(env, s);
      x := s;
    } else if AlreadyCommitted(s.ledger, steps[0].idempotencyKey) {
      x := CommittedMeansExecuted(env, s, steps[1..]);
      GotPastSkipped(env, s, x, steps);
    } else {
      AttemptEndsOtherwise(env, s, steps);
      AttemptProceeds(env, s, steps);
      var m := AttemptStep(env, s, steps).s;
      x := CommittedMeansExecuted(env, m, steps[1..]);
      GotPastExecuted(env, s, m, x, steps);
    }
  }

  lemma AttemptEndsOtherwise<W>(env: Env<W>, s: Sys<W>, steps: seq<SagaStep>)
    requires s.saga.Some? && steps != []
    ensures AttemptStep(env, s, steps).end != AllCommitted
  {
    hide PrepareStep, Abandon;
    AbandonNeverPauses(env, Tick(s));
    PrepareNeverPauses(env, Tick(s), steps[0]);
  }

  /** The call stands at step i, having executed the remaining steps before it. */
  ghost predicate StandsAt<W>(env: Env<W>, s: Sys<W>, x: Sys<W>, steps: seq<SagaStep>, i: nat) {
    && i < |steps| && GotTo(env, s, x, steps[..i])
    && !AlreadyCommitted(x.ledger, steps[i].idempotencyKey)
  }

  /**
   Every other end is the end of one attempt: the call got to some step that is not skipped, having
   executed the remaining ones before it, and that attempt did not go on.
   */
  lemma {:induction false} StoppedAt<W>(env: Env<W>, s: Sys<W>, steps: seq<SagaStep>) returns (x: Sys<W>, i: nat)
    requires s.saga.Some? && ExecuteSteps(env, s, steps).end != AllCommitted
    ensures StandsAt(env, s, x, steps, i) && x.saga.Some?
    ensures ExecuteSteps(env, s, steps) == AttemptStep(env, x, steps[i..])
    decreases |steps|
  {
    hide AttemptStep, GotTo, Executed;
    var x', i';
    if AlreadyCommitted(s.ledger, steps[0].idempotencyKey) {
      x', i' := StoppedAt(env, s, steps[1..]);
      assert steps[..i' + 1][0] == steps[0] && steps[..i' + 1][1..] == steps[1..][..i'];
      GotPastSkipped(env, s, x', steps[..i' + 1]);
      x, i := x', i' + 1;
    } else {
      var t := AttemptStep(env, s, steps);
      if t.end == Proceed {
        AttemptProceeds(env, s, steps);
        x', i' := StoppedAt(env, t.s, steps[1..]);
        assert steps[..i' + 1][0] == steps[0] && steps[..i' + 1][1..] == steps[1..][..i'];
        GotPastExecuted(env, s, t.s, x', steps[..i' + 1]);
        x, i := x', i' + 1;
      } else {
        GotNowhere(env, s);
        assert steps[..0] == [] && steps[0..] == steps;
        x, i := s, 0;
      }
    }
    assert steps[i..] == if i == 0 then steps else steps[1..][i - 1..];
  }

  // ── Pauses ────────────────────────────────────────────────────────

  predicate Skipped(l: Ledger, step: SagaStep) {
    Keyed(step.idempotencyKey) && step.idempotencyKey.value in l.published
  }

  /** The gate and the preflight admit a step at this instant. */
  predicate Admitted<W>(env: Env<W>, instant: nat) {
    env.choice(instant).gate == Admit && env.choice(instant).preflight
  }

  predicate NeedsApproval(step: SagaStep) {
    step.requiresApproval && !step.approved
  }

  /** y is x paused on these steps: they wait in memory and on record, and nothing else happened. */
  ghost predicate PausedOn<W>(x: Sys<W>, y: Sys<W>, steps: seq<SagaStep>)
    requires steps != []
  {
    var waiting := steps[0 := steps[0].(status := AWAITING_APPROVAL)];
    && x.saga.Some?
    && y.saga == Some(x.saga.value.(status := SagaStatus.AwaitingApproval, pendingSteps := waiting))
    && y.ledger == x.ledger.(
         status := Some(SagaStatus.AwaitingApproval),
         metadata := x.ledger.metadata.(pendingSteps := SerializeSteps(waiting), startTime := Some(x.saga.value.startTime)))
    && y.world == x.world && y.runs == x.runs && y.undos == x.undos && y.clock == x.clock + 1
  }

  /** What happens at a step that is not skipped, before it is registered. */
  lemma AtTheGate<W>(env: Env<W>, x: Sys<W>, steps: seq<SagaStep>)
    requires x.saga.Some? && steps != []
    ensures var t := AttemptStep(env, x, steps);
      && (t.end == Paused <==> Admitted(env, x.clock) && NeedsApproval(steps[0]))
      && (t.end == Paused ==> PausedOn(x, t.s, steps))
      && (!Admitted(env, x.clock) ==> t == RollBack(env, Tick(x), x.saga.value.completedSteps))
  {
    hide PrepareStep, RollBack, SerializeSteps;
    AbandonNeverPauses(env, Tick(x));
    PrepareNeverPauses(env, Tick(x), steps[0]);
    assert [steps[0].(status := AWAITING_APPROVAL)] + steps[1..] == steps[0 := steps[0].(status := AWAITING_APPROVAL)];
  }

  lemma {:induction false} SkipTo<W>(env: Env<W>, s: Sys<W>, steps: seq<SagaStep>, i: nat)
    requires s.saga.Some? && i <= |steps| && forall j | 0 <= j < i :: Skipped(s.ledger, steps[j])
    ensures ExecuteSteps(env, s, steps) == ExecuteSteps(env, s, steps[i..])
    decreases i
  {
    hide AttemptStep;
    if i > 0 {
      assert Skipped(s.ledger, steps[0]);
      forall j | 0 <= j < i - 1
        ensures Skipped(s.ledger, steps[1..][j])
      {
        assert steps[1..][j] == steps[j + 1];
      }
      SkipTo(env, s, steps[1..], i - 1);
      assert steps[1..][i - 1..] == steps[i..];
    } else {
      assert steps[0..] == steps;
    }
  }

  /**
   The first step that is not skipped, when it is admitted and lacks an approval it needs: the call
   pauses on it and everything after it, and the journal, the world and the history are untouched.
   */
  lemma PausesAtFirst<W>(env: Env<W>, s: Sys<W>, steps: seq<SagaStep>, i: nat)
    requires s.saga.Some? && i < |steps| && !Skipped(s.ledger, steps[i])
    requires forall j | 0 <= j < i :: Skipped(s.ledger, steps[j])
    requires Admitted(env, s.clock) && NeedsApproval(steps[i])
    ensures var t := ExecuteSteps(env, s, steps); t.end == Paused && PausedOn(s, t.s, steps[i..])
  {
    hide AttemptStep, PausedOn;
    SkipTo(env, s, steps, i);
    AtTheGate(env, s, steps[i..]);
  }

  /** When the step is not admitted instead, the call is the rollback of what was completed. */
  lemma RollsBackAtFirst<W>(env: Env<W>, s: Sys<W>, steps: seq<SagaStep>, i: nat)
    requires s.saga.Some? && i < |steps| && !Skipped(s.ledger, steps[i])
    requires forall j | 0 <= j < i :: Skipped(s.ledger, steps[j])
    requires !Admitted(env, s.clock)
    ensures ExecuteSteps(env, s, steps) == RollBack(env, Tick(s), s.saga.value.completedSteps)
  {
    hide AttemptStep, RollBack;
    SkipTo(env, s, steps, i);
    AtTheGate(env, s, steps[i..]);
    RollBackNeverProceeds(env, Tick(s));
  }

  lemma RollBackNeverProceeds<W>(env: Env<W>, s: Sys<W>)
    requires s.saga.Some?
    ensures RollBack(env, s, s.saga.value.completedSteps).end in {Restored, Crashed, RollbackFailed}
  {
    hide CompensateAll;
    CompensateAllEnds(env, WithStatus(s, SagaStatus.Compensating), s.saga.value.completedSteps);
  }

  /**
   A call pauses only so: it got to a step that is not skipped, executing the remaining steps before
   it and no other, the step was admitted and lacked its approval, and it waits with all that follow.
   */
  lemma PausedOnlyThere<W>(env: Env<W>, s: Sys<W>, steps: seq<SagaStep>) returns (x: Sys<W>, i: nat)
    requires s.saga.Some? && ExecuteSteps(env, s, steps).end == Paused
    ensures StandsAt(env, s, x, steps, i) && Admitted(env, x.clock) && NeedsApproval(steps[i])
    ensures PausedOn(x, ExecuteSteps(env, s, steps).s, steps[i..])
  {
    hide AttemptStep, PausedOn, StandsAt;
    x, i := StoppedAt(env, s, steps);
    assert i < |steps| by { StandsWithin(env, s, x, steps, i); }
    AtTheGate(env, x, steps[i..]);
  }

  lemma StandsWithin<W>(env: Env<W>, s: Sys<W>, x: Sys<W>, steps: seq<SagaStep>, i: nat)
    requires StandsAt(env, s, x, steps, i)
    ensures i < |steps|
  {
  }

  // ── A step that is admitted and needs no approval ─────────────────

  /** The journal with this step's record in some state, in its place if it was there. */
  function InState(entries: seq<Entry>, step: SagaStep, state: EffectState): seq<Entry> {
    var k, e := IndexOf(entries, step.stepId), CommittedRecord(step).(state := state);
    if k == |entries| then entries + [e] else entries[k := e]
  }

  /** The process died in y, with this journal, world and history; memory is not to be relied on. */
  ghost predicate DiedWith<W>(x: Sys<W>, t: Turn<W>, instant: nat, entries: seq<Entry>, world: W, runs: multiset<string>) {
    && t.end == Crashed && t.s.clock == instant + 1
    && t.s.ledger.entries == entries && t.s.world == world && t.s.runs == runs && t.s.undos == x.undos
    && t.s.ledger.status == x.ledger.status && t.s.ledger.metadata == x.ledger.metadata
    && t.s.ledger.deadLetters == x.ledger.deadLetters
  }

  lemma RegisterNew(l: Ledger, step: SagaStep)
    requires IndexOf(l.entries, step.stepId) == |l.entries|
    ensures PrepareEffect(l, step) == Some(WithNew(l, step))
    ensures WithNew(l, step).entries == InState(l.entries, step, EffectState.Prepared)
    ensures MoveAt(WithNew(l, step), step.stepId, Claim) == Some(WithClaim(l, step))
    ensures WithClaim(l, step).entries == InState(l.entries, step, EffectState.Executing)
    ensures IndexOf(WithClaim(l, step).entries, step.stepId) == |l.entries| < |WithClaim(l, step).entries|
    ensures WithNew(l, step) == l.(entries := WithNew(l, step).entries)
    ensures WithClaim(l, step) == l.(entries := WithClaim(l, step).entries, moves := WithClaim(l, step).moves)
    ensures MoveAt(WithClaim(l, step), step.stepId, RejectCall, CALL_FAILED) ==
      Some(SetState(WithClaim(l, step), |l.entries|, EffectState.Aborted, CALL_FAILED))
  {
    NewClaim(l, step);
  }

  function AppliedLedger(l: Ledger, step: SagaStep): Ledger
    requires |l.entries| < |WithClaim(l, step).entries|
  {
    SetState(WithClaim(l, step), |l.entries|, EffectState.Applied, "")
  }

  /** The two moves after a call that reported success. */
  lemma RecordNew(l: Ledger, step: SagaStep)
    requires IndexOf(l.entries, step.stepId) == |l.entries| < |WithClaim(l, step).entries|
    ensures var l2 := AppliedLedger(l, step);
      && MoveAt(WithClaim(l, step), step.stepId, RecordApplied) == Some(l2)
      && l2.entries == InState(l.entries, step, EffectState.Applied)
      && l2 == l.(entries := l2.entries, moves := l2.moves)
      && var committed := CommitEffect(l2, step.stepId, step.idempotencyKey);
      && committed.Some?
      && committed.value.entries == InState(l.entries, step, EffectState.Committed)
      && committed.value.published == Published(l, step.idempotencyKey)
      && committed.value == l.(entries := committed.value.entries, moves := committed.value.moves,
                               published := committed.value.published)
  {
    RegisterNew(l, step);
    var l1, l2 := WithClaim(l, step), AppliedLedger(l, step);
    IndexOfSameIds(l1.entries, l2.entries, step.stepId);
    assert l2.entries == InState(l.entries, step, EffectState.Applied);
    var l3 := SetState(l2, |l.entries|, EffectState.Committed, "");
    assert l3.entries == InState(l.entries, step, EffectState.Committed);
  }

  /** Reply and effect of a forward call, told by the answer and what the tool does. */
  predicate CallRaises<W>(env: Env<W>, c: CallChoice, target: Option<W>) {
    c.Raise? || (c.Succeed? && target.None? && env.refusalRaises)
  }

  predicate CallSucceeds<W>(c: CallChoice, target: Option<W>) {
    c.Succeed? && target.Some?
  }

  predicate CallApplies<W>(c: CallChoice, target: Option<W>) {
    target.Some? && (c.Succeed? || (c.Fail? && c.applied) || (c.Raise? && c.applied))
  }

  /** The state after the call of a new step at instant n + 3, x being the state at instant n. */
  function Called<W>(env: Env<W>, x: Sys<W>, step: SagaStep): Sys<W> {
    var c, target := env.choice(x.clock + 3).call, env.act(step.action, x.world);
    var y := x.(clock := x.clock + 4, ledger := WithClaim(x.ledger, step));
    if CallApplies(c, target) then y.(world := target.value, runs := x.runs + multiset{step.stepId}) else y
  }

  /**
   A new step, admitted at instant n. The first checkpoint finds its record PREPARED, the second
   EXECUTING and no call made; the call is made at n + 3; the third checkpoint finds its effect and the
   record still EXECUTING. A call that raises leads to quarantine without a third checkpoint; one that
   reports failure is ABORTED and everything completed rolled back.
   */
  lemma CallTable<W>(env: Env<W>, x: Sys<W>, steps: seq<SagaStep>)
    requires x.saga.Some? && steps != [] && Admitted(env, x.clock) && !NeedsApproval(steps[0])
    requires IndexOf(x.ledger.entries, steps[0].stepId) == |x.ledger.entries|
    ensures var t, step, n, entries := AttemptStep(env, x, steps), steps[0], x.clock, x.ledger.entries;
      var c, target, y := env.choice(n + 3).call, env.act(step.action, x.world), Called(env, x, step);
      if env.choice(n + 1).crash then DiedWith(x, t, n + 1, InState(entries, step, EffectState.Prepared), x.world, x.runs)
      else if env.choice(n + 2).crash then DiedWith(x, t, n + 2, InState(entries, step, EffectState.Executing), x.world, x.runs)
      else if CallRaises(env, c, target) then t == AbandonAmbiguous(env, y, step)
      else if env.choice(n + 4).crash then DiedWith(x, t, n + 4, InState(entries, step, EffectState.Executing), y.world, y.runs)
      else if !CallSucceeds(c, target) then
        var aborted := SetState(y.ledger, |entries|, EffectState.Aborted, CALL_FAILED);
        t == RollBack(env, y.(clock := n + 5, ledger := aborted), x.saga.value.completedSteps)
      else t == RecordStep(env, y.(clock := n + 5), step)
  {
    hide AttemptStep, PrepareEffect, MoveAt, WithNew, WithClaim, IndexOf, RecordStep, AbandonAmbiguous, RollBack, InState,
      SetState;
    var step, l := steps[0], x.ledger;
    RegisterNew(l, step);
    UpToTheCall(env, x, steps);
  }

  lemma UpToTheCall<W>(env: Env<W>, x: Sys<W>, steps: seq<SagaStep>)
    requires x.saga.Some? && steps != [] && Admitted(env, x.clock) && !NeedsApproval(steps[0])
    requires IndexOf(x.ledger.entries, steps[0].stepId) == |x.ledger.entries|
    ensures AttemptStep(env, x, steps) ==
      if env.choice(x.clock + 1).crash
      then Turn(x.(clock := x.clock + 2, ledger := WithNew(x.ledger, steps[0])), Crashed)
      else CallStep(env, x.(clock := x.clock + 2, ledger := WithClaim(x.ledger, steps[0])), steps[0])
  {
    hide PrepareEffect, MoveAt, WithNew, WithClaim, IndexOf, CallStep, RollBack, Abandon, Pause;
    RegisterNew(x.ledger, steps[0]);
  }

  /**
   After a call that reported success at n + 3: the fourth checkpoint finds the record APPLIED, the fifth
   COMMITTED with its key published; a process that survives both goes on, with the step executed.
   */
  lemma RecordTable<W>(env: Env<W>, x: Sys<W>, steps: seq<SagaStep>)
    requires x.saga.Some? && steps != [] && Admitted(env, x.clock) && !NeedsApproval(steps[0])
    requires IndexOf(x.ledger.entries, steps[0].stepId) == |x.ledger.entries|
    requires CallSucceeds(env.choice(x.clock + 3).call, env.act(steps[0].action, x.world))
    requires !env.choice(x.clock + 1).crash && !env.choice(x.clock + 2).crash && !env.choice(x.clock + 4).crash
    ensures var t, step, n, entries := AttemptStep(env, x, steps), steps[0], x.clock, x.ledger.entries;
      var world, runs := env.act(step.action, x.world).value, x.runs + multiset{step.stepId};
      if env.choice(n + 5).crash then DiedWith(x, t, n + 5, InState(entries, step, EffectState.Applied), world, runs)
      else if env.choice(n + 6).crash then
        DiedWith(x, t, n + 6, InState(entries, step, EffectState.Committed), world, runs)
        && t.s.ledger.published == Published(x.ledger, step.idempotencyKey)
      else t.end == Proceed && Executed(env, x, t.s, step) && t.s.clock == n + 7
  {
    hide AttemptStep, MoveAt, CommitEffect, IndexOf, Abandon, AbandonAmbiguous, InState, SetState, WithClaim, AppliedLedger,
      Executed, Published, CallRaises;
    var step, l := steps[0], x.ledger;
    CallTable(env, x, steps);
    RegisterNew(l, step);
    RecordNew(l, step);
    NotRaised(env, env.choice(x.clock + 3).call, env.act(step.action, x.world));
    var y := Called(env, x, step).(clock := x.clock + 5);
    var t := AttemptStep(env, x, steps);
    assert t == RecordStep(env, y, step);
    if t.end == Proceed {
      AttemptProceeds(env, x, steps);
    }
  }

  lemma NotRaised<W>(env: Env<W>, c: CallChoice, target: Option<W>)
    requires CallSucceeds(c, target)
    ensures !CallRaises(env, c, target)
  {
  }

  // ── A step whose id is in the journal already ─────────────────────

  /** The record is the one this step would register, at whatever stage. */
  predicate RecordOf(e: Entry, step: SagaStep) {
    e == CommittedRecord(step).(state := e.state, error := e.error)
  }

  /** Registration appends a new record, accepts an identical one as it is, and refuses a reused id. */
  lemma RegistrationTable(l: Ledger, step: SagaStep)
    ensures var k := IndexOf(l.entries, step.stepId);
      PrepareEffect(l, step) ==
        if k == |l.entries| then Some(l.(entries := l.entries + [CommittedRecord(step).(state := EffectState.Prepared)]))
        else if RecordOf(l.entries[k], step) then Some(l)
        else None
  {
  }

  /**
   A step whose id is in the journal is not called again unless its identical record was never claimed:
   a reused id rolls back at once, a record that was claimed before after the first checkpoint.
   */
  lemma RepeatTable<W>(env: Env<W>, x: Sys<W>, steps: seq<SagaStep>)
    requires x.saga.Some? && steps != [] && Admitted(env, x.clock) && !NeedsApproval(steps[0])
    requires IndexOf(x.ledger.entries, steps[0].stepId) < |x.ledger.entries| && !Free(x.ledger.entries, steps[0])
    ensures var t, n, completed := AttemptStep(env, x, steps), x.clock, x.saga.value.completedSteps;
      if !RecordOf(x.ledger.entries[IndexOf(x.ledger.entries, steps[0].stepId)], steps[0])
      then t == RollBack(env, x.(clock := n + 1), completed)
      else if env.choice(n + 1).crash then t == Turn(x.(clock := n + 2), Crashed)
      else t == RollBack(env, x.(clock := n + 2), completed)
  {
    hide IndexOf, RollBack, CallStep, PrepareEffect;
    RegistrationTable(x.ledger, steps[0]);
  }

  // ── Starting, approving, rejecting ────────────────────────────────

  /** A saga is started once per process, RUNNING in memory and on record, with nothing completed. */
  lemma StartMeans<W>(s: Sys<W>, goal: string, tenantId: string, now: real)
    ensures var t := Start(s, goal, tenantId, now);
      if s.saga.Some? then t == Turn(s, Denied)
      else
        && t.end == Proceed
        && t.s.saga == Some(SagaTransaction(tenantId, goal, SagaStatus.Running, now, [], []))
        && t.s.ledger == s.ledger.(status := Some(SagaStatus.Running),
                                   metadata := s.ledger.metadata.(goal := Some(goal), tenantId := Some(tenantId)))
        && t.s == s.(saga := t.s.saga, ledger := t.s.ledger)
  {
  }

  /** The saga waits for a decision about these steps. */
  predicate Awaits<W>(s: Sys<W>) {
    s.saga.Some? && s.saga.value.status == SagaStatus.AwaitingApproval && s.saga.value.pendingSteps != []
  }

  /** The pending steps, the first of them approved. */
  function Approved<W>(s: Sys<W>): seq<SagaStep>
    requires Awaits(s)
  {
    var pending := s.saga.value.pendingSteps;
    pending[0 := pending[0].(approved := true)]
  }

  /** The pause is over: RUNNING in memory and on record, with no step pending. */
  ghost predicate Resumed<W>(s: Sys<W>, y: Sys<W>) {
    && s.saga.Some?
    && y == s.(saga := Some(s.saga.value.(status := SagaStatus.Running, pendingSteps := [])),
               ledger := s.ledger.(status := Some(SagaStatus.Running),
                                   metadata := s.ledger.metadata.(pendingSteps := [])))
  }

  lemma ResumeIs<W>(env: Env<W>, s: Sys<W>) returns (y: Sys<W>)
    ensures !Awaits(s) ==> Resume(env, s) == Turn(s, Denied)
    ensures Awaits(s) ==> Resumed(s, y) && Resume(env, s) == ExecuteSteps(env, y, Approved(s))
  {
    hide ExecuteSteps;
    y := s;
    if Awaits(s) {
      y := s.(saga := Some(s.saga.value.(status := SagaStatus.Running, pendingSteps := [])),
              ledger := s.ledger.(status := Some(SagaStatus.Running), metadata := s.ledger.metadata.(pendingSteps := [])));
    }
  }

  /**
   An approval that commits has executed every pending step whose key was not published, in order,
   each once: each has a committed record with its action, compensation and key.
   */
  lemma ApprovedStepsAreExecuted<W>(env: Env<W>, s: Sys<W>)
    requires Awaits(s) && Resume(env, s).end == AllCommitted
    ensures var t, todo := Resume(env, s), Remaining(s.ledger.published, Approved(s));
      && ActsOf(env, todo, s.world) == Some(t.s.world)
      && t.s.runs == s.runs + StepIds(todo) && t.s.undos == s.undos
      && HasAll(t.s.ledger.entries, todo) && t.s.ledger.published == s.ledger.published + KeysOf(todo)
  {
    hide ExecuteSteps, HasAll, AllFree;
    var y := ResumeIs(env, s);
    var x := CommittedMeansExecuted(env, y, Approved(s));
  }

  /**
   The approved step itself: when nothing goes wrong, it is new to the journal, its key is not
   published and its tool accepts it, then exactly its action is carried out and recorded first.
   */
  lemma ApprovedStepIsExecuted<W>(env: Env<W>, s: Sys<W>) returns (y: Sys<W>, m: Sys<W>)
    requires Awaits(s) && env.choice == Smooth()
    requires IndexOf(s.ledger.entries, Approved(s)[0].stepId) == |s.ledger.entries|
    requires !Skipped(s.ledger, Approved(s)[0]) && env.act(Approved(s)[0].action, s.world).Some?
    ensures Resumed(s, y) && Executed(env, y, m, Approved(s)[0])
    ensures Resume(env, s) == ExecuteSteps(env, m, s.saga.value.pendingSteps[1..])
  {
    y := ResumeIs(env, s);
    var steps := Approved(s);
    RecordTable(env, y, steps);
    hide AttemptStep, Executed, DiedWith, IndexOf;
    m := AttemptStep(env, y, steps).s;
    assert steps[1..] == s.saga.value.pendingSteps[1..];
  }

  /** A list whose steps can all run commits when nothing goes wrong. */
  lemma {:induction false} SmoothCommits<W>(env: Env<W>, s: Sys<W>, steps: seq<SagaStep>)
    requires s.saga.Some? && env.choice == Smooth() && RunnableAll(env, s, steps)
    ensures ExecuteSteps(env, s, steps).end == AllCommitted
    decreases |steps|
  {
    hide AttemptStep, Runnable;
    if steps != [] {
      if AlreadyCommitted(s.ledger, steps[0].idempotencyKey) {
        SmoothCommits(env, s, steps[1..]);
      } else {
        SmoothAttempt(env, s, steps);
        assert env.(choice := Smooth()) == env;
        SmoothCommits(env, AttemptStep(env, s, steps).s, steps[1..]);
      }
    }
  }

  /** A rejection is refused unless the saga awaits approval; otherwise it rolls back what was completed. */
  lemma RejectIs<W>(env: Env<W>, s: Sys<W>)
    ensures var t, waiting := Reject(env, s), s.saga.Some? && s.saga.value.status == SagaStatus.AwaitingApproval;
      && (!waiting ==> t == Turn(s, Denied))
      && (waiting ==>
            var y := s.(saga := Some(s.saga.value.(pendingSteps := [])),
                        ledger := s.ledger.(status := Some(SagaStatus.Compensating),
                                            metadata := s.ledger.metadata.(pendingSteps := [])));
            t == RollBack(env, y, s.saga.value.completedSteps))
  {
    hide CompensateAll;
  }

  /** When the completed steps can be undone and nothing goes wrong, a rejection undoes them. */
  lemma RejectUndoes<W(!new)>(env: Env<W>, s: Sys<W>)
    requires s.saga.Some? && s.saga.value.status == SagaStatus.AwaitingApproval
    requires Steady(env) && DistinctIds(s.ledger.entries) && Undoable(env, s)
    ensures var t := Reject(env, s);
      t.end == Restored && t.s.world == UndoneWorld(env, s.world, s.saga.value.completedSteps)
  {
    hide CompensateAll, Steady, DistinctIds, UndoPath, DistinctSteps, RecordsCanUndo;
    RejectIs(env, s);
    var y := s.(saga := Some(s.saga.value.(pendingSteps := [])),
                ledger := s.ledger.(status := Some(SagaStatus.Compensating),
                                    metadata := s.ledger.metadata.(pendingSteps := [])));
    RollbackUndoes(env, WithStatus(y, SagaStatus.Compensating), s.saga.value.completedSteps);
  }
}
