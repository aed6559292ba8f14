/**
 The calls of one process. A saga stays in memory after a call, whatever became of it, and its list
 of completed steps is never cleared. This follows what the process remembers from call to call: when
 its next report of a rollback will be true, and that a saga is rolled back at most once.
 */
module Processes {
  import opened Prelude
  import opened Sagas
  import opened Journal
  import opened Environment
  import opened CoordinatorSpec
  import opened Runs
  import opened Lifecycle
  import opened Restoration
  import opened Rollback
  import opened CrashRecovery
  import opened Resubmission
  import opened Reports

  // ── What a process remembers of spoiled rollbacks ─────────────────

  /** The record of this step has been applied at least: its rank says that it is at APPLIED or beyond. */
  ghost predicate Reached(entries: seq<Entry>, stepId: string) {
    var i := IndexOf(entries, stepId);
    i < |entries| && Rank(entries[i].state) <= Rank(EffectState.Applied)
  }

  ghost predicate AllReached<W>(s: Sys<W>) {
    forall j | 0 <= j < |Completed(s)| :: Reached(s.ledger.entries, Completed(s)[j].stepId)
  }

  /** The record of this step is in a final state, which no rollback can undo any more. */
  ghost predicate Final(entries: seq<Entry>, stepId: string) {
    var i := IndexOf(entries, stepId);
    i < |entries| && Rank(entries[i].state) == 0
  }

  ghost predicate SpoiledBy(entries: seq<Entry>, completed: seq<SagaStep>) {
    exists j :: 0 <= j < |completed| && Final(entries, completed[j].stepId)
  }

  /** A step remembered as completed was rolled back already, or could not be. */
  ghost predicate Spoiled<W>(s: Sys<W>) {
    DistinctIds(s.ledger.entries) && SpoiledBy(s.ledger.entries, Completed(s))
  }

  /** With a spoiled step on the list no rollback goes through. */
  lemma {:induction false} SpoiledNeverRestores<W>(env: Env<W>, s: Sys<W>, completed: seq<SagaStep>)
    requires DistinctIds(s.ledger.entries) && SpoiledBy(s.ledger.entries, completed)
    ensures CompensateAll(env, s, completed).end != Restored
    decreases |completed|
  {
    hide CompensateStep, DistinctIds;
    var n := |completed| - 1;
    var step := completed[n];
    CompensateStepChanges(env, s, step);
    var t := CompensateStep(env, s, step);
    if t.end == Proceed {
      var k := IndexOf(s.ledger.entries, step.stepId);
      OnlyChangedIds(s, t.s, k);
      var j :| 0 <= j < |completed| && Final(s.ledger.entries, completed[j].stepId);
      assert j < n && completed[..n][j] == completed[j];
      assert Final(t.s.ledger.entries, completed[..n][j].stepId);
      SpoiledNeverRestores(env, t.s, completed[..n]);
    }
  }

  /** One record changed to a state at APPLIED or beyond. */
  lemma ChangeKeepsReached<W>(s: Sys<W>, s': Sys<W>, k: nat)
    requires OnlyChanged(s, s', k) && DistinctIds(s.ledger.entries)
    requires Rank(s'.ledger.entries[k].state) <= Rank(EffectState.Applied)
    ensures forall id | Reached(s.ledger.entries, id) :: Reached(s'.ledger.entries, id)
  {
    hide DistinctIds, Rank;
    OnlyChangedIds(s, s', k);
  }

  lemma ChangeIsFinal<W>(s: Sys<W>, s': Sys<W>, stepId: string)
    requires Reached(s.ledger.entries, stepId) && DistinctIds(s.ledger.entries)
    requires var k := IndexOf(s.ledger.entries, stepId);
      && OnlyChanged(s, s', k)
      && if CanUndo(s.ledger.entries[k].state) then s'.ledger.entries[k].state == EffectState.CompensationFailed
         else s'.ledger.entries[k].state == s.ledger.entries[k].state
    ensures Final(s'.ledger.entries, stepId) && DistinctIds(s'.ledger.entries)
  {
    hide DistinctIds;
    OnlyChangedIds(s, s', IndexOf(s.ledger.entries, stepId));
  }

  /** A rollback that fails has left such a step behind. */
  lemma {:induction false} FailedRollbackSpoils<W>(env: Env<W>, s: Sys<W>, completed: seq<SagaStep>)
    requires DistinctIds(s.ledger.entries)
    requires forall j | 0 <= j < |completed| :: Reached(s.ledger.entries, completed[j].stepId)
    ensures var t := CompensateAll(env, s, completed);
      t.end == RollbackFailed ==> DistinctIds(t.s.ledger.entries) && SpoiledBy(t.s.ledger.entries, completed)
    decreases |completed|
  {
    hide CompensateStep, DistinctIds, Reached, Final, OnlyChanged, IndexOf;
    if completed != [] {
      var n := |completed| - 1;
      var step, rest := completed[n], completed[..n];
      CompensateStepChanges(env, s, step);
      var t := CompensateStep(env, s, step);
      var k := IndexOf(s.ledger.entries, step.stepId);
      ReachedIsThere(s.ledger.entries, step.stepId);
      if t.end == Proceed {
        OnlyChangedIds(s, t.s, k);
        ChangeKeepsReached(s, t.s, k);
        assert forall j | 0 <= j < |rest| :: rest[j] == completed[j];
        FailedRollbackSpoils(env, t.s, rest);
        var u := CompensateAll(env, t.s, rest);
        if u.end == RollbackFailed {
          var j :| 0 <= j < |rest| && Final(u.s.ledger.entries, rest[j].stepId);
          assert completed[j] == rest[j];
        }
      } else if t.end == RollbackFailed {
        ChangeIsFinal(s, t.s, step.stepId);
      }
    }
  }

  /** So has one that went through, unless there was nothing to undo. */
  lemma DoneRollbackSpoils<W>(env: Env<W>, s: Sys<W>, completed: seq<SagaStep>)
    requires DistinctIds(s.ledger.entries) && completed != []
    requires forall j | 0 <= j < |completed| :: Reached(s.ledger.entries, completed[j].stepId)
    ensures var t := CompensateAll(env, s, completed);
      t.end == Restored ==> DistinctIds(t.s.ledger.entries) && SpoiledBy(t.s.ledger.entries, completed)
  {
    hide CompensateAll, DistinctIds;
    RollbackSettles(env, s, completed);
    var t := CompensateAll(env, s, completed);
    assert Reached(s.ledger.entries, completed[0].stepId);
    if t.end == Restored {
      CompensateAllQuiet(env, s, completed);
      QuietIndex(s, t.s, completed[0].stepId);
      var i := IndexOf(s.ledger.entries, completed[0].stepId);
      assert NamedIn(completed, s.ledger.entries[i].stepId);
      assert Final(t.s.ledger.entries, completed[0].stepId);
    }
  }

  lemma QuietIndex<W>(s: Sys<W>, s': Sys<W>, stepId: string)
    requires Quiet(s, s')
    ensures IndexOf(s'.ledger.entries, stepId) == IndexOf(s.ledger.entries, stepId)
  {
    assert forall i | 0 <= i < |s.ledger.entries| :: QuietEntry(s.ledger.entries[i], s'.ledger.entries[i]);
    IndexOfSameIds(s.ledger.entries, s'.ledger.entries, stepId);
  }

  // ── Operations only add to the list and lower the ranks ───────────

  /** The records of `a` are there in `b`, at their places, and none of them has climbed. */
  ghost predicate Descends(a: seq<Entry>, b: seq<Entry>) {
    |a| <= |b| && forall i | 0 <= i < |a| :: b[i].stepId == a[i].stepId && Rank(b[i].state) <= Rank(a[i].state)
  }

  lemma DescendsStable(start: seq<Entry>)
    ensures Stable((l: Ledger) => Descends(start, l.entries))
  {
    DescendsUnderMoves(start);
    DescendsUnderPrepare(start);
    DescendsUnderCommit(start);
    hide StableUnderMoves, StableUnderPrepare, StableUnderCommit, Rank;
  }

  lemma DescendsUnderMoves(start: seq<Entry>)
    ensures StableUnderMoves((l: Ledger) => Descends(start, l.entries))
  {
    forall l: Ledger, stepId, site, error | Descends(start, l.entries) && MoveAt(l, stepId, site, error).Some?
      ensures Descends(start, MoveAt(l, stepId, site, error).value.entries)
    {
      var i := IndexOf(l.entries, stepId);
      SitesFollowEdges(site, l.entries[i].state);
      EdgesDescend(l.entries[i].state, Journal.Target(site));
    }
  }

  lemma DescendsUnderPrepare(start: seq<Entry>)
    ensures StableUnderPrepare((l: Ledger) => Descends(start, l.entries))
  {
    hide Rank;
  }

  lemma DescendsUnderCommit(start: seq<Entry>)
    ensures StableUnderCommit((l: Ledger) => Descends(start, l.entries))
  {
    hide Registered, AlreadyCommitted;
  }

  lemma DescendsSelf(a: seq<Entry>)
    ensures Descends(a, a)
  {
  }

  lemma DescendsReached(a: seq<Entry>, b: seq<Entry>, stepId: string)
    requires Descends(a, b) && IndexOf(a, stepId) < |a|
    ensures IndexOf(b, stepId) == IndexOf(a, stepId)
    ensures Reached(a, stepId) ==> Reached(b, stepId)
    ensures Final(a, stepId) ==> Final(b, stepId)
  {
    hide Rank;
    var i := IndexOf(a, stepId);
    assert b[i].stepId == stepId;
    assert forall j | 0 <= j < i :: b[j].stepId == a[j].stepId;
  }

  /** The operation remembers what was completed before, and what it adds has been applied. */
  ghost predicate Remembers<W>(s: Sys<W>, s': Sys<W>) {
    && s'.saga.Some? == s.saga.Some?
    && Completed(s) <= Completed(s')
    && forall j | |Completed(s)| <= j < |Completed(s')| :: Reached(s'.ledger.entries, Completed(s')[j].stepId)
  }

  lemma QuietRemembers<W>(s: Sys<W>, s': Sys<W>)
    requires Quiet(s, s')
    ensures Remembers(s, s')
  {
  }

  lemma RemembersTrans<W>(s: Sys<W>, t: Sys<W>, u: Sys<W>)
    requires Remembers(s, t) && Remembers(t, u) && Descends(t.ledger.entries, u.ledger.entries)
    ensures Remembers(s, u)
  {
    hide Reached;
    forall j | |Completed(s)| <= j < |Completed(u)|
      ensures Reached(u.ledger.entries, Completed(u)[j].stepId)
    {
      if j < |Completed(t)| {
        assert Completed(u)[j] == Completed(t)[j];
        ReachedIsThere(t.ledger.entries, Completed(t)[j].stepId);
        DescendsReached(t.ledger.entries, u.ledger.entries, Completed(t)[j].stepId);
      }
    }
  }

  lemma ReachedIsThere(entries: seq<Entry>, stepId: string)
    requires Reached(entries, stepId)
    ensures IndexOf(entries, stepId) < |entries|
  {
  }

  lemma AbandonDescends<W>(env: Env<W>, s: Sys<W>)
    ensures Descends(s.ledger.entries, Abandon(env, s).s.ledger.entries)
  {
    hide Abandon;
    DescendsStable(s.ledger.entries);
    AbandonKeeps(env, s, (l: Ledger) => Descends(s.ledger.entries, l.entries));
  }

  /** The step whose call succeeded, once it is on the list. */
  lemma AppliedIsReached(l: Ledger, stepId: string)
    ensures var applied := MoveAt(l, stepId, RecordApplied);
      applied.Some? ==> Reached(applied.value.entries, stepId)
  {
    var applied := MoveAt(l, stepId, RecordApplied);
    if applied.Some? {
      IndexOfSameIds(l.entries, applied.value.entries, stepId);
    }
  }

  lemma CommittedIsReached(l: Ledger, stepId: string, key: Option<string>)
    requires Reached(l.entries, stepId)
    ensures var committed := CommitEffect(l, stepId, key);
      committed.Some? ==> Reached(committed.value.entries, stepId)
  {
    var committed := CommitEffect(l, stepId, key);
    if committed.Some? {
      IndexOfSameIds(l.entries, committed.value.entries, stepId);
    }
  }

  /** One step was added to the list, and its record has been applied. */
  ghost predicate AddsOne<W>(s: Sys<W>, s': Sys<W>, step: SagaStep) {
    && s'.saga.Some? && s.saga.Some?
    && |Completed(s')| == |Completed(s)| + 1 && Completed(s) <= Completed(s')
    && Completed(s')[|Completed(s)|].stepId == step.stepId
    && Reached(s'.ledger.entries, step.stepId)
  }

  lemma AddsOneLater<W>(s: Sys<W>, s1: Sys<W>, s2: Sys<W>, step: SagaStep)
    requires AddsOne(s, s1, step) && s2.saga.Some? && Completed(s2) == Completed(s1)
    requires Reached(s2.ledger.entries, step.stepId)
    ensures AddsOne(s, s2, step) && Remembers(s, s2)
  {
    hide Reached;
  }

  lemma RecordRemembers<W>(env: Env<W>, s: Sys<W>, step: SagaStep)
    requires s.saga.Some?
    ensures Remembers(s, RecordStep(env, s, step).s)
  {
    hide MoveAt, CommitEffect, Abandon, AbandonAmbiguous, Reached, Quiet, Descends, Remembers;
    AbandonAmbiguousQuiet(env, s, step);
    QuietRemembers(s, AbandonAmbiguous(env, s, step).s);
    AppliedIsReached(s.ledger, step.stepId);
    var applied := MoveAt(s.ledger, step.stepId, RecordApplied);
    if applied.Some? {
      var s1 := s.(ledger := applied.value);
      assert Remembers(s, Tick(s1)) by { SameListRemembers(s, Tick(s1)); }
      var s2 := AppendCompleted(Tick(s1), step);
      assert AddsOne(s, s2, step) by { AppendAddsOne(s, Tick(s1), step); }
      AbandonQuiet(env, s2);
      AbandonDescends(env, s2);
      ReachedIsThere(s2.ledger.entries, step.stepId);
      DescendsReached(s2.ledger.entries, Abandon(env, s2).s.ledger.entries, step.stepId);
      QuietCompleted(s2, Abandon(env, s2).s);
      AddsOneLater(s, s2, Abandon(env, s2).s, step);
      CommittedIsReached(s2.ledger, step.stepId, step.idempotencyKey);
      var committed := CommitEffect(s2.ledger, step.stepId, step.idempotencyKey);
      if committed.Some? {
        AddsOneLater(s, s2, Tick(s2.(ledger := committed.value)), step);
      }
    }
  }

  lemma QuietCompleted<W>(s: Sys<W>, s': Sys<W>)
    requires Quiet(s, s')
    ensures Completed(s') == Completed(s) && (s'.saga.Some? <==> s.saga.Some?)
  {
  }

  lemma SameListRemembers<W>(s: Sys<W>, s': Sys<W>)
    requires s'.saga.Some? == s.saga.Some? && Completed(s') == Completed(s)
    ensures Remembers(s, s')
  {
  }

  lemma AppendAddsOne<W>(s: Sys<W>, s1: Sys<W>, step: SagaStep)
    requires s.saga.Some? && s1.saga == s.saga && Reached(s1.ledger.entries, step.stepId)
    ensures AddsOne(s, AppendCompleted(s1, step), step)
  {
    hide Reached;
  }

  lemma CallRemembers<W>(env: Env<W>, s: Sys<W>, step: SagaStep)
    requires s.saga.Some?
    ensures Remembers(s, CallStep(env, s, step).s)
  {
    hide MoveAt, RecordStep, Abandon, AbandonAmbiguous, Quiet, Remembers;
    var a := Execute(env, Tick(s), step.stepId, step.action);
    assert a.s.ledger == s.ledger && a.s.saga == s.saga;
    hide Execute;
    forall x: Sys<W> | x.saga == s.saga
      ensures Remembers(s, x)
      ensures Remembers(s, Abandon(env, x).s) && Remembers(s, AbandonAmbiguous(env, x, step).s)
      ensures x.saga.Some? ==> Remembers(s, RecordStep(env, x, step).s)
    {
      StopsRemember(env, s, x, step);
    }
  }

  /** Whatever ends a step from a state with the same memory. */
  lemma StopsRemember<W>(env: Env<W>, s: Sys<W>, x: Sys<W>, step: SagaStep)
    requires s.saga.Some? && x.saga == s.saga
    ensures Remembers(s, x)
    ensures Remembers(s, Abandon(env, x).s) && Remembers(s, AbandonAmbiguous(env, x, step).s)
    ensures Remembers(s, RecordStep(env, x, step).s)
  {
    hide RecordStep, Abandon, AbandonAmbiguous, Quiet, Reached;
    AbandonQuiet(env, x);
    AbandonAmbiguousQuiet(env, x, step);
    QuietCompleted(x, Abandon(env, x).s);
    QuietCompleted(x, AbandonAmbiguous(env, x, step).s);
    RecordRemembers(env, x, step);
  }

  lemma PrepareRemembers<W>(env: Env<W>, s: Sys<W>, step: SagaStep)
    requires s.saga.Some?
    ensures Remembers(s, PrepareStep(env, s, step).s)
  {
    hide MoveAt, PrepareEffect, CallStep, Abandon, AbandonAmbiguous, Quiet, Remembers;
    forall x: Sys<W> | x.saga == s.saga
      ensures Remembers(s, x) && Remembers(s, Abandon(env, x).s)
      ensures x.saga.Some? ==> Remembers(s, CallStep(env, x, step).s)
    {
      StopsRemember(env, s, x, step);
      CallRemembers(env, x, step);
      SameMemory(s, x, CallStep(env, x, step).s);
    }
  }

  lemma SameMemory<W>(s: Sys<W>, x: Sys<W>, u: Sys<W>)
    requires x.saga == s.saga && Remembers(x, u)
    ensures Remembers(s, u)
  {
    hide Reached;
  }

  lemma AttemptRemembers<W>(env: Env<W>, s: Sys<W>, steps: seq<SagaStep>)
    requires s.saga.Some? && steps != []
    ensures Remembers(s, AttemptStep(env, s, steps).s)
  {
    hide PrepareStep, Abandon, Reached;
    StopsRemember(env, s, Tick(s), steps[0]);
    PrepareRemembers(env, Tick(s), steps[0]);
  }

  lemma {:induction false} ExecuteRemembers<W>(env: Env<W>, s: Sys<W>, steps: seq<SagaStep>)
    requires s.saga.Some?
    ensures Remembers(s, ExecuteSteps(env, s, steps).s)
    decreases |steps|
  {
    hide AttemptStep, Remembers, Descends;
    if steps == [] {
      SameListRemembers(s, ExecuteSteps(env, s, steps).s);
    } else if AlreadyCommitted(s.ledger, steps[0].idempotencyKey) {
      ExecuteRemembers(env, s, steps[1..]);
    } else {
      AttemptRemembers(env, s, steps);
      var t := AttemptStep(env, s, steps);
      if t.end == Proceed {
        ExecuteRemembers(env, t.s, steps[1..]);
        DescendsStable(t.s.ledger.entries);
        DescendsSelf(t.s.ledger.entries);
        ExecuteStepsKeeps(env, t.s, steps[1..], (l: Ledger) => Descends(t.s.ledger.entries, l.entries));
        RemembersTrans(s, t.s, ExecuteSteps(env, t.s, steps[1..]).s);
      }
    }
  }

  // ── How operations end ────────────────────────────────────────────

  /** The process knows the saga, and every step it remembers has been applied. */
  ghost predicate Lasting<W>(s: Sys<W>) {
    s.saga.Some? && DistinctIds(s.ledger.entries) && AllReached(s)
  }

  ghost predicate Onward<W>(s: Sys<W>, x: Sys<W>) {
    Lasting(x) && (Spoiled(s) ==> Spoiled(x))
  }

  lemma OnwardBy<W>(s: Sys<W>, x: Sys<W>)
    requires Lasting(s) && Remembers(s, x) && Descends(s.ledger.entries, x.ledger.entries) && DistinctIds(x.ledger.entries)
    ensures Onward(s, x)
  {
    hide Reached, Final, Descends, DistinctIds;
    forall j | 0 <= j < |Completed(x)|
      ensures Reached(x.ledger.entries, Completed(x)[j].stepId)
    {
      if j < |Completed(s)| {
        assert Completed(x)[j] == Completed(s)[j];
        ReachedIsThere(s.ledger.entries, Completed(s)[j].stepId);
        DescendsReached(s.ledger.entries, x.ledger.entries, Completed(s)[j].stepId);
      }
    }
    if Spoiled(s) {
      var j :| 0 <= j < |Completed(s)| && Final(s.ledger.entries, Completed(s)[j].stepId);
      FinalIsThere(s.ledger.entries, Completed(s)[j].stepId);
      DescendsReached(s.ledger.entries, x.ledger.entries, Completed(s)[j].stepId);
      assert Completed(x)[j] == Completed(s)[j];
    }
  }

  lemma FinalIsThere(entries: seq<Entry>, stepId: string)
    requires Final(entries, stepId)
    ensures IndexOf(entries, stepId) < |entries|
  {
  }

  lemma DistinctStable()
    ensures Stable((l: Ledger) => DistinctIds(l.entries))
  {
    DistinctUnderMoves();
    DistinctUnderPrepare();
    DistinctUnderCommit();
    hide StableUnderMoves, StableUnderPrepare, StableUnderCommit;
  }

  lemma DistinctUnderMoves()
    ensures StableUnderMoves((l: Ledger) => DistinctIds(l.entries))
  {
    hide Expected, Journal.Target;
  }

  lemma DistinctUnderPrepare()
    ensures StableUnderPrepare((l: Ledger) => DistinctIds(l.entries))
  {
  }

  lemma DistinctUnderCommit()
    ensures StableUnderCommit((l: Ledger) => DistinctIds(l.entries))
  {
    hide Registered, AlreadyCommitted;
  }

  /** What the primitives of the journal do to a lasting state. */
  lemma MoveOnward<W>(s: Sys<W>, stepId: string, site: Site, error: string)
    requires Lasting(s)
    ensures Onward(s, s) && Onward(s, Tick(s))
    ensures var moved := MoveAt(s.ledger, stepId, site, error);
      moved.Some? ==> Onward(s, s.(ledger := moved.value)) && Onward(s, Tick(s).(ledger := moved.value))
  {
    hide MoveAt, Descends, DistinctIds, Reached, Onward;
    DescendsSelf(s.ledger.entries);
    OnwardBy(s, s);
    OnwardBy(s, Tick(s));
    var moved := MoveAt(s.ledger, stepId, site, error);
    if moved.Some? {
      DescendsStable(s.ledger.entries);
      DistinctStable();
      OnwardBy(s, s.(ledger := moved.value));
      OnwardBy(s, Tick(s).(ledger := moved.value));
    }
  }

  lemma PrepareOnward<W>(s: Sys<W>, step: SagaStep)
    requires Lasting(s)
    ensures var prepared := PrepareEffect(s.ledger, step);
      prepared.Some? ==> Onward(s, s.(ledger := prepared.value)) && Onward(s, Tick(s.(ledger := prepared.value)))
  {
    hide PrepareEffect, Descends, DistinctIds, Reached, Onward;
    DescendsSelf(s.ledger.entries);
    var prepared := PrepareEffect(s.ledger, step);
    if prepared.Some? {
      DescendsStable(s.ledger.entries);
      DistinctStable();
      OnwardBy(s, s.(ledger := prepared.value));
      OnwardBy(s, Tick(s.(ledger := prepared.value)));
    }
  }

  lemma OnwardLasts<W>(s: Sys<W>, x: Sys<W>)
    requires Onward(s, x)
    ensures Lasting(x) && x.saga.Some?
  {
  }

  lemma OnwardTrans<W>(s: Sys<W>, x: Sys<W>, y: Sys<W>)
    requires Onward(s, x) && Onward(x, y)
    ensures Onward(s, y)
  {
  }

  /** How an operation may end. */
  ghost predicate Ending<W>(s: Sys<W>, t: Turn<W>) {
    && (t.end != Crashed ==> Onward(s, t.s))
    && (t.end == RollbackFailed ==> Spoiled(t.s))
    && (t.end == Quarantined ==> Completed(t.s) == [] || Spoiled(t.s))
    && (t.end == Quarantined && Completed(t.s) == [] ==> !AllSettled(t.s.ledger.entries))
    && (Spoiled(s) ==> t.end != Restored)
  }

  lemma EndingFrom<W>(s: Sys<W>, x: Sys<W>, t: Turn<W>)
    requires Onward(s, x) && Ending(x, t)
    ensures Ending(s, t)
  {
  }

  /** A step that goes on, or dies. */
  lemma StepEnding<W>(s: Sys<W>, x: Sys<W>)
    ensures Ending(s, Turn(x, Crashed))
    ensures Onward(s, x) ==> Ending(s, Turn(x, Proceed))
  {
  }

  lemma CompletedReached<W>(s: Sys<W>)
    requires Lasting(s)
    ensures forall j | 0 <= j < |Completed(s)| :: Reached(s.ledger.entries, Completed(s)[j].stepId)
  {
  }

  lemma AbandonEnding<W>(env: Env<W>, s: Sys<W>)
    requires Lasting(s)
    ensures var t := Abandon(env, s);
      Ending(s, t) && t.end in {Restored, Crashed, RollbackFailed}
      && (t.end != Crashed ==> Completed(t.s) == [] || Spoiled(t.s))
  {
    hide CompensateAll, Reached, Descends, DistinctIds, Quiet, SpoiledBy, Onward;
    var s1, done := WithStatus(s, SagaStatus.Compensating), Completed(s);
    var t := Abandon(env, s);
    CompletedReached(s);
    AbandonNeverPauses(env, s);
    AbandonQuiet(env, s);
    QuietRemembers(s, t.s);
    QuietCompleted(s, t.s);
    AbandonDescends(env, s);
    assert DistinctIds(t.s.ledger.entries) by { AbandonDistinct(env, s); }
    OnwardBy(s, t.s);
    FailedRollbackSpoils(env, s1, done);
    if done != [] {
      DoneRollbackSpoils(env, s1, done);
    }
    if Spoiled(s) {
      SpoiledNeverRestores(env, s1, done);
    }
  }

  lemma AbandonDistinct<W>(env: Env<W>, s: Sys<W>)
    requires DistinctIds(s.ledger.entries)
    ensures DistinctIds(Abandon(env, s).s.ledger.entries)
  {
    hide Abandon;
    DistinctStable();
    AbandonKeeps(env, s, (l: Ledger) => DistinctIds(l.entries));
  }

  /** The record of this step is EXECUTING. */
  ghost predicate Calling(entries: seq<Entry>, stepId: string) {
    var i := IndexOf(entries, stepId);
    i < |entries| && entries[i].state == EffectState.Executing
  }

  lemma ClaimCalls(l: Ledger, stepId: string)
    ensures var claimed := MoveAt(l, stepId, Claim);
      claimed.Some? ==> Calling(claimed.value.entries, stepId)
  {
    var claimed := MoveAt(l, stepId, Claim);
    if claimed.Some? {
      IndexOfSameIds(l.entries, claimed.value.entries, stepId);
    }
  }

  lemma CallingMoves(l: Ledger, stepId: string)
    requires Calling(l.entries, stepId)
    ensures MoveAt(l, stepId, RejectCall, CALL_FAILED).Some? && MoveAt(l, stepId, RecordApplied).Some?
    ensures var moved := MoveAt(l, stepId, RecordRaised, CALL_RAISED);
      moved.Some? && !AllSettled(moved.value.entries)
  {
    var moved := MoveAt(l, stepId, RecordRaised, CALL_RAISED).value;
    assert !Settled(moved.entries[IndexOf(l.entries, stepId)].state);
  }

  lemma NothingUndone<W>(env: Env<W>, s: Sys<W>)
    requires Completed(s) == []
    ensures Abandon(env, s).s.ledger.entries == s.ledger.entries
  {
  }

  lemma AmbiguousEnding<W>(env: Env<W>, s: Sys<W>, step: SagaStep)
    requires Lasting(s) && Calling(s.ledger.entries, step.stepId)
    ensures Ending(s, AbandonAmbiguous(env, s, step))
  {
    hide Abandon, MoveAt, Lasting, Spoiled, Calling, AllSettled;
    AbandonEnding(env, s);
    var t := Abandon(env, s);
    if t.end != Crashed {
      assert Lasting(t.s);
      MoveOnward(t.s, step.stepId, RecordRaised, CALL_RAISED);
      var moved := MoveAt(t.s.ledger, step.stepId, RecordRaised, CALL_RAISED);
      var x := t.s.(ledger := moved.GetOr(t.s.ledger));
      LettersOnward(x, step.stepName, CALL_RAISED);
      OnwardTrans(t.s, x, AbandonAmbiguous(env, s, step).s);
      OnwardTrans(s, t.s, AbandonAmbiguous(env, s, step).s);
      if Completed(t.s) == [] {
        AbandonQuiet(env, s);
        QuietCompleted(s, t.s);
        NothingUndone(env, s);
        CallingMoves(t.s.ledger, step.stepId);
      }
    }
  }

  lemma SameBooksOnward<W>(s: Sys<W>, x: Sys<W>)
    requires Lasting(s) && x.ledger.entries == s.ledger.entries && x.saga.Some? && Completed(x) == Completed(s)
    ensures Onward(s, x)
  {
  }

  lemma LettersOnward<W>(s: Sys<W>, stepName: string, error: string)
    requires Lasting(s)
    ensures Onward(s, s.(ledger := DeadLetterRecovery(s.ledger, stepName, error)))
  {
    SameBooksOnward(s, s.(ledger := DeadLetterRecovery(s.ledger, stepName, error)));
  }

  lemma AppendOnward<W>(s: Sys<W>, step: SagaStep)
    requires Lasting(s) && Reached(s.ledger.entries, step.stepId)
    ensures Onward(s, AppendCompleted(s, step)) && Completed(AppendCompleted(s, step)) != []
  {
    hide Reached, Descends, DistinctIds, Onward;
    DescendsSelf(s.ledger.entries);
    OnwardBy(s, AppendCompleted(s, step));
  }

  lemma CommitOnward<W>(s: Sys<W>, step: SagaStep)
    requires Lasting(s)
    ensures var committed := CommitEffect(s.ledger, step.stepId, step.idempotencyKey);
      committed.Some? ==> Onward(s, Tick(s.(ledger := committed.value)))
  {
    hide Reached, DistinctIds, Onward, Spoiled;
    var committed := CommitEffect(s.ledger, step.stepId, step.idempotencyKey);
    if committed.Some? {
      var l := SetState(s.ledger, IndexOf(s.ledger.entries, step.stepId), EffectState.Committed,
                        s.ledger.entries[IndexOf(s.ledger.entries, step.stepId)].error);
      assert l.entries == committed.value.entries;
      assert Descends(s.ledger.entries, l.entries);
      assert DistinctIds(l.entries) by { SetStateIds(s.ledger, IndexOf(s.ledger.entries, step.stepId)); }
      OnwardBy(s, Tick(s.(ledger := committed.value)));
    }
  }

  lemma SetStateIds(l: Ledger, i: nat)
    requires DistinctIds(l.entries) && i < |l.entries|
    ensures DistinctIds(SetState(l, i, EffectState.Committed, l.entries[i].error).entries)
  {
  }

  /** The last part of a step: the commit, from the state s with the step on the list. */
  lemma CommitEnding<W>(env: Env<W>, s: Sys<W>, step: SagaStep)
    requires Lasting(s)
    ensures Ending(s, Abandon(env, s))
    ensures var committed := CommitEffect(s.ledger, step.stepId, step.idempotencyKey);
      committed.Some? ==>
        var x := Tick(s.(ledger := committed.value));
        Ending(s, Turn(x, Crashed)) && Ending(s, Turn(x, Proceed))
  {
    hide CommitEffect, Abandon, Lasting, Onward, Ending;
    AbandonEnding(env, s);
    CommitOnward(s, step);
    var committed := CommitEffect(s.ledger, step.stepId, step.idempotencyKey);
    if committed.Some? {
      StepEnding(s, Tick(s.(ledger := committed.value)));
    }
  }

  /** The state with the step on the list. */
  lemma ListedOnward<W>(s: Sys<W>, step: SagaStep)
    requires Lasting(s)
    ensures s.saga.Some?
    ensures var applied := MoveAt(s.ledger, step.stepId, RecordApplied);
      applied.Some? ==> Onward(s, AppendCompleted(Tick(s.(ledger := applied.value)), step))
  {
    OnwardLasts(s, s) by { MoveOnward(s, step.stepId, RecordApplied, ""); }
    hide MoveAt, Lasting, Onward, Reached, AppendCompleted;
    MoveOnward(s, step.stepId, RecordApplied, "");
    AppliedIsReached(s.ledger, step.stepId);
    var applied := MoveAt(s.ledger, step.stepId, RecordApplied);
    if applied.Some? {
      var s1 := Tick(s.(ledger := applied.value));
      assert s1 == Tick(s).(ledger := applied.value);
      OnwardLasts(s, s1);
      AppendOnward(s1, step);
      OnwardTrans(s, s1, AppendCompleted(s1, step));
    }
  }

  lemma RecordEnding<W>(env: Env<W>, s: Sys<W>, step: SagaStep)
    requires Lasting(s) && Calling(s.ledger.entries, step.stepId)
    ensures s.saga.Some? && Ending(s, RecordStep(env, s, step))
  {
    hide MoveAt, CommitEffect, Abandon, AbandonAmbiguous, Lasting, Onward, Ending, AppendCompleted, Calling;
    AmbiguousEnding(env, s, step);
    ListedOnward(s, step);
    var applied := MoveAt(s.ledger, step.stepId, RecordApplied);
    if applied.Some? {
      var s1 := Tick(s.(ledger := applied.value));
      StepEnding(s, s1);
      var s2 := AppendCompleted(s1, step);
      OnwardLasts(s, s2);
      CommitEnding(env, s2, step);
      EndingFrom(s, s2, Abandon(env, s2));
      var committed := CommitEffect(s2.ledger, step.stepId, step.idempotencyKey);
      if committed.Some? {
        var s3 := Tick(s2.(ledger := committed.value));
        EndingFrom(s, s2, Turn(s3, Crashed));
        EndingFrom(s, s2, Turn(s3, Proceed));
      }
    }
  }

  lemma CallEnding<W>(env: Env<W>, s: Sys<W>, step: SagaStep)
    requires Lasting(s) && Calling(s.ledger.entries, step.stepId)
    ensures s.saga.Some? && Ending(s, CallStep(env, s, step))
  {
    assert s.saga.Some?;
    var a := Execute(env, Tick(s), step.stepId, step.action);
    assert a.s.ledger == s.ledger && a.s.saga == s.saga;
    SameBooksOnward(s, a.s);
    SameBooksOnward(s, Tick(a.s));
    hide Execute, MoveAt, RecordStep, Abandon, AbandonAmbiguous, Lasting, Onward, Ending, Calling;
    OnwardLasts(s, a.s);
    OnwardLasts(s, Tick(a.s));
    StepEnding(s, Tick(s));
    StepEnding(s, Tick(a.s));
    AmbiguousEnding(env, a.s, step);
    EndingFrom(s, a.s, AbandonAmbiguous(env, a.s, step));
    AmbiguousEnding(env, Tick(a.s), step);
    EndingFrom(s, Tick(a.s), AbandonAmbiguous(env, Tick(a.s), step));
    RecordEnding(env, Tick(a.s), step);
    EndingFrom(s, Tick(a.s), RecordStep(env, Tick(a.s), step));
    MoveOnward(Tick(a.s), step.stepId, RejectCall, CALL_FAILED);
    var aborted := MoveAt(a.s.ledger, step.stepId, RejectCall, CALL_FAILED);
    if aborted.Some? {
      var x := Tick(a.s).(ledger := aborted.value);
      OnwardTrans(s, Tick(a.s), x);
      OnwardLasts(s, x);
      AbandonEnding(env, x);
      EndingFrom(s, x, Abandon(env, x));
    }
  }

  lemma PrepareEnding<W>(env: Env<W>, s: Sys<W>, step: SagaStep)
    requires Lasting(s)
    ensures s.saga.Some? && Ending(s, PrepareStep(env, s, step))
  {
    assert s.saga.Some?;
    hide MoveAt, PrepareEffect, CallStep, Abandon, Lasting, Spoiled, Calling, AllSettled;
    AbandonEnding(env, s);
    PrepareOnward(s, step);
    var prepared := PrepareEffect(s.ledger, step);
    if prepared.Some? {
      var s1 := Tick(s.(ledger := prepared.value));
      AbandonEnding(env, s1);
      EndingFrom(s, s1, Abandon(env, s1));
      MoveOnward(s1, step.stepId, Claim, "");
      var claimed := MoveAt(s1.ledger, step.stepId, Claim);
      if claimed.Some? {
        var s2 := s1.(ledger := claimed.value);
        ClaimCalls(s1.ledger, step.stepId);
        OnwardTrans(s, s1, s2);
        CallEnding(env, s2, step);
        EndingFrom(s, s2, CallStep(env, s2, step));
      }
    }
  }

  lemma AttemptEnding<W>(env: Env<W>, s: Sys<W>, steps: seq<SagaStep>)
    requires Lasting(s) && steps != []
    ensures s.saga.Some? && Ending(s, AttemptStep(env, s, steps))
  {
    SameBooksOnward(s, Tick(s));
    SameBooksOnward(s, Pause(Tick(s), steps).s);
    hide PrepareStep, Abandon, Spoiled, DistinctIds, AllReached;
    AbandonEnding(env, Tick(s));
    EndingFrom(s, Tick(s), Abandon(env, Tick(s)));
    PrepareEnding(env, Tick(s), steps[0]);
    EndingFrom(s, Tick(s), PrepareStep(env, Tick(s), steps[0]));
  }

  lemma {:induction false} ExecuteEnding<W>(env: Env<W>, s: Sys<W>, steps: seq<SagaStep>)
    requires Lasting(s)
    ensures s.saga.Some? && Ending(s, ExecuteSteps(env, s, steps))
    decreases |steps|
  {
    assert s.saga.Some?;
    if steps == [] {
      SameBooksOnward(s, ExecuteSteps(env, s, steps).s);
    } else {
      hide AttemptStep, Lasting, Spoiled;
      if AlreadyCommitted(s.ledger, steps[0].idempotencyKey) {
        ExecuteEnding(env, s, steps[1..]);
      } else {
        AttemptEnding(env, s, steps);
        var t := AttemptStep(env, s, steps);
        if t.end == Proceed {
          ExecuteEnding(env, t.s, steps[1..]);
          EndingFrom(s, t.s, ExecuteSteps(env, t.s, steps[1..]));
        }
      }
    }
  }

  // ── A process and its calls ───────────────────────────────────────

  /** The next report of this process will be true. */
  ghost predicate Trustworthy<W>(s: Sys<W>) {
    s.saga.None? || (Lasting(s) && (Accounted(s) || Spoiled(s)))
  }

  /** Calls, approvals and rejections: what clients ask of a process that has started the saga. */
  predicate ClientOp(op: Operation) {
    op.ExecuteOp? || op.ResumeOp? || op.RejectOp?
  }

  /** A call raised before anything was completed. */
  ghost predicate EmptyQuarantine<W>(t: Turn<W>) {
    t.end == Quarantined && Completed(t.s) == []
  }

  ghost predicate TrustworthyTurn<W>(t: Turn<W>) {
    && (t.end == Restored ==> AllSettled(t.s.ledger.entries))
    && (t.end != Proceed && !EmptyQuarantine(t) ==> Trustworthy(AfterTurn(t)))
  }

  lemma ExecuteTrustworthy<W>(env: Env<W>, s: Sys<W>, steps: seq<SagaStep>)
    requires Lasting(s) && (Accounted(s) || Spoiled(s))
    ensures s.saga.Some? && TrustworthyTurn(ExecuteSteps(env, s, steps)) && ExecuteSteps(env, s, steps).end != Proceed
  {
    hide ExecuteSteps, Accounted, Spoiled, AllSettled, DistinctIds, AllReached;
    ExecuteEnding(env, s, steps);
    ExecuteEnds(env, s, steps);
    if Accounted(s) {
      ExecuteReportsTruly(env, s, steps);
    }
  }

  lemma PrepareEnds<W>(env: Env<W>, s: Sys<W>, step: SagaStep)
    requires s.saga.Some?
    ensures var t := PrepareStep(env, s, step);
      && t.end in {Proceed, Restored, Crashed, RollbackFailed, Quarantined}
      && (t.end == RollbackFailed ==> t.s.ledger.status == Some(SagaStatus.CompensationFailed))
  {
    hide Abandon, MoveAt, PrepareEffect, CommitEffect, Execute;
    forall x: Sys<W>
      ensures var t := Abandon(env, x);
        && t.end in {Restored, Crashed, RollbackFailed}
        && (t.end == RollbackFailed ==> t.s.ledger.status == Some(SagaStatus.CompensationFailed))
    {
      AbandonEnds(env, x);
    }
  }

  lemma AbandonEnds<W>(env: Env<W>, s: Sys<W>)
    ensures var t := Abandon(env, s);
      && t.end in {Restored, Crashed, RollbackFailed}
      && (t.end == RollbackFailed ==> t.s.ledger.status == Some(SagaStatus.CompensationFailed))
  {
    hide CompensateAll;
    AbandonNeverPauses(env, s);
    FailedStatus(env, WithStatus(s, SagaStatus.Compensating), Completed(s));
  }

  lemma {:induction false} FailedStatus<W>(env: Env<W>, s: Sys<W>, completed: seq<SagaStep>)
    ensures var t := CompensateAll(env, s, completed);
      t.end == RollbackFailed ==> t.s.ledger.status == Some(SagaStatus.CompensationFailed)
    decreases |completed|
  {
    if completed != [] {
      var step := completed[|completed| - 1];
      FailedStepStatus(env, s, step);
      hide CompensateStep;
      var t := CompensateStep(env, s, step);
      if t.end == Proceed {
        FailedStatus(env, t.s, completed[..|completed| - 1]);
      }
    }
  }

  lemma FailedStepStatus<W>(env: Env<W>, s: Sys<W>, step: SagaStep)
    ensures var t := CompensateStep(env, s, step);
      t.end == RollbackFailed ==> t.s.ledger.status == Some(SagaStatus.CompensationFailed)
  {
    hide MoveAt, IndexOf, ExecuteCompensation, HandleCompensationFailure;
    forall x: Sys<W>
      ensures HandleCompensationFailure(x, step).s.ledger.status == Some(SagaStatus.CompensationFailed)
    {
      HandledStatus(x, step);
    }
  }

  lemma HandledStatus<W>(s: Sys<W>, step: SagaStep)
    ensures HandleCompensationFailure(s, step).s.ledger.status == Some(SagaStatus.CompensationFailed)
  {
  }

  lemma {:induction false} ExecuteEnds<W>(env: Env<W>, s: Sys<W>, steps: seq<SagaStep>)
    requires s.saga.Some?
    ensures var t := ExecuteSteps(env, s, steps);
      && t.end in {AllCommitted, Paused, Restored, Crashed, RollbackFailed, Quarantined}
      && (t.end == RollbackFailed ==> t.s.ledger.status == Some(SagaStatus.CompensationFailed))
    decreases |steps|
  {
    if steps != [] {
      hide PrepareStep, Abandon, AlreadyCommitted;
      AbandonEnds(env, Tick(s));
      PrepareEnds(env, Tick(s), steps[0]);
      if AlreadyCommitted(s.ledger, steps[0].idempotencyKey) {
        ExecuteEnds(env, s, steps[1..]);
      } else if AttemptStep(env, s, steps).end == Proceed {
        ExecuteEnds(env, AttemptStep(env, s, steps).s, steps[1..]);
      }
    }
  }

  /** The same books under another status, with other pending steps. */
  lemma SameBooksTrustworthy<W>(s: Sys<W>, x: Sys<W>)
    requires x.ledger.entries == s.ledger.entries && s.saga.Some? && x.saga.Some? && Completed(x) == Completed(s)
    ensures Lasting(x) == Lasting(s) && Accounted(x) == Accounted(s) && Spoiled(x) == Spoiled(s)
  {
  }

  lemma RejectTrustworthy<W>(env: Env<W>, s: Sys<W>)
    requires Trustworthy(s)
    ensures TrustworthyTurn(Reject(env, s)) && Reject(env, s).end != Proceed
  {
    hide Abandon, RollBack, Lasting, Accounted, Spoiled, AllSettled;
    if s.saga.Some? && s.saga.value.status == SagaStatus.AwaitingApproval {
      var saga := s.saga.value.(pendingSteps := []);
      var l := WriteStatus(s.ledger, SagaStatus.Compensating);
      var s' := s.(saga := Some(saga), ledger := l.(metadata := l.metadata.(pendingSteps := [])));
      SameBooksTrustworthy(s, s');
      AbandonIs(env, s');
      AbandonEnding(env, s');
      EndingTrustworthy(s', Abandon(env, s'));
      if Accounted(s') {
        AbandonTrue(env, s');
      }
    }
  }

  lemma EndingTrustworthy<W>(s: Sys<W>, t: Turn<W>)
    requires Lasting(s) && Ending(s, t) && t.end in {Restored, Crashed, RollbackFailed}
    ensures t.end != Crashed ==> Lasting(t.s)
    ensures t.end == RollbackFailed ==> Spoiled(t.s)
    ensures Spoiled(s) ==> t.end != Restored
  {
  }

  lemma ResumeTrustworthy<W>(env: Env<W>, s: Sys<W>)
    requires Trustworthy(s)
    ensures TrustworthyTurn(Resume(env, s)) && Resume(env, s).end != Proceed
  {
    hide ExecuteSteps, Lasting, Accounted, Spoiled, AllSettled;
    if s.saga.Some? {
      var pending := s.saga.value.pendingSteps;
      var saga := s.saga.value.(pendingSteps := [], status := SagaStatus.Running);
      var l := WriteStatus(s.ledger, SagaStatus.Running);
      var s' := s.(saga := Some(saga), ledger := l.(metadata := l.metadata.(pendingSteps := [])));
      SameBooksTrustworthy(s, s');
      if pending != [] {
        ExecuteTrustworthy(env, s', pending[0 := pending[0].(approved := true)]);
      }
    }
  }

  /** One operation: its report is true, and so will be the next, unless a call raised with nothing completed. */
  lemma PerformTrustworthy<W>(env: Env<W>, s: Sys<W>, op: Operation)
    requires Trustworthy(s) && ClientOp(op)
    ensures TrustworthyTurn(Perform(env, s, op)) && Perform(env, s, op).end != Proceed
  {
    hide ExecuteSteps, Resume, Reject, Lasting, Accounted, Spoiled, AllSettled;
    match op
    case ExecuteOp(steps) =>
      if s.saga.Some? { ExecuteTrustworthy(env, s, steps); }
    case ResumeOp => ResumeTrustworthy(env, s);
    case RejectOp => RejectTrustworthy(env, s);
  }

  /** How the k-th of these operations ends. */
  function TurnOf<W>(env: Env<W>, s: Sys<W>, ops: seq<Operation>, k: nat): Turn<W>
    requires k < |ops|
  {
    Perform(env, Run(env, s, ops[..k]), ops[k])
  }

  lemma {:induction false} RunTrustworthy<W>(env: Env<W>, s: Sys<W>, ops: seq<Operation>)
    requires Trustworthy(s) && forall op <- ops :: ClientOp(op)
    requires forall k | 0 <= k < |ops| :: !EmptyQuarantine(TurnOf(env, s, ops, k))
    ensures Trustworthy(Run(env, s, ops))
    decreases |ops|
  {
    hide Perform, Trustworthy, EmptyQuarantine;
    if ops != [] {
      assert ops[..0] == [] && Run(env, s, ops[..0]) == s;
      assert TurnOf(env, s, ops, 0) == Perform(env, s, ops[0]);
      PerformTrustworthy(env, s, ops[0]);
      var s1, rest := AfterTurn(Perform(env, s, ops[0])), ops[1..];
      forall k | 0 <= k < |rest|
        ensures !EmptyQuarantine(TurnOf(env, s1, rest, k))
      {
        assert ops[..k + 1][0] == ops[0] && ops[..k + 1][1..] == rest[..k];
        assert TurnOf(env, s, ops, k + 1) == TurnOf(env, s1, rest, k);
      }
      RunTrustworthy(env, s1, rest);
    }
  }

  /**
   Any calls, approvals and rejections of one process, in any environment, from a state whose next
   report will be true: a false ROLLED_BACK can only follow an operation in which a call raised
   while nothing was completed.
   */
  lemma FalseReportNeedsQuarantine<W>(env: Env<W>, s: Sys<W>, ops: seq<Operation>)
    requires Trustworthy(s) && ops != [] && forall op <- ops :: ClientOp(op)
    ensures var n := |ops| - 1;
      var t := TurnOf(env, s, ops, n);
      t.end == Restored && !AllSettled(t.s.ledger.entries) ==>
        exists k :: 0 <= k < n && EmptyQuarantine(TurnOf(env, s, ops, k))
  {
    hide Run, Perform, Trustworthy, EmptyQuarantine, AllSettled;
    var n := |ops| - 1;
    var before := ops[..n];
    if forall k | 0 <= k < n :: !EmptyQuarantine(TurnOf(env, s, ops, k)) {
      forall k | 0 <= k < n
        ensures !EmptyQuarantine(TurnOf(env, s, before, k))
      {
        assert before[..k] == ops[..k];
        assert TurnOf(env, s, before, k) == TurnOf(env, s, ops, k);
      }
      RunTrustworthy(env, s, before);
      PerformTrustworthy(env, Run(env, s, before), ops[n]);
    }
  }

  /**
   And after such an operation it does not take much: if the gate denies the next step, the report is
   false, whatever the saga consists of.
   */
  lemma EmptyQuarantineMisleads<W(!new)>(env: Env<W>, s: Sys<W>, steps: seq<SagaStep>, next: seq<SagaStep>)
    requires Lasting(s) && EmptyQuarantine(ExecuteSteps(env, s, steps))
    requires SomeUnpublished(ExecuteSteps(env, s, steps).s.ledger, next)
    ensures s.saga.Some?
    ensures var x := ExecuteSteps(env, s, steps).s;
      x.saga.Some? &&
      var t := ExecuteSteps(env.(choice := DeniedAt(x.clock)), x, next);
      t.end == Restored && t.s.ledger.status == Some(SagaStatus.RolledBack) && !AllSettled(t.s.ledger.entries)
  {
    hide ExecuteSteps, DistinctIds, AllReached, SomeUnpublished, DeniedAt, Spoiled;
    ExecuteEnding(env, s, steps);
    var x := ExecuteSteps(env, s, steps).s;
    assert !AccountedIn(x.ledger.entries, []);
    DeniedCallReportsFalsely(env, x, next);
  }

  /** A saga just started has nothing to account for. */
  lemma StartIsTrustworthy<W>(s: Sys<W>, goal: string, tenantId: string, now: real)
    requires s.saga.None? && s.ledger.entries == []
    ensures Trustworthy(Start(s, goal, tenantId, now).s)
  {
  }

  // ── A saga that was rolled back is called again ───────────────────

  /** Records in a final state are as they were. */
  ghost predicate Frozen(a: seq<Entry>, b: seq<Entry>) {
    |a| <= |b| && forall i | 0 <= i < |a| && Rank(a[i].state) == 0 ::
      b[i].state == a[i].state && b[i].stepId == a[i].stepId
  }

  lemma FrozenStable(start: seq<Entry>)
    ensures Stable((l: Ledger) => Frozen(start, l.entries))
  {
    FrozenUnderMoves(start);
    FrozenUnderPrepare(start);
    FrozenUnderCommit(start);
    hide StableUnderMoves, StableUnderPrepare, StableUnderCommit;
  }

  lemma FrozenUnderMoves(start: seq<Entry>)
    ensures StableUnderMoves((l: Ledger) => Frozen(start, l.entries))
  {
    forall l: Ledger, stepId, site, error | Frozen(start, l.entries) && MoveAt(l, stepId, site, error).Some?
      ensures Frozen(start, MoveAt(l, stepId, site, error).value.entries)
    {
      var i := IndexOf(l.entries, stepId);
      SitesFollowEdges(site, l.entries[i].state);
      EdgesDescend(l.entries[i].state, Journal.Target(site));
      assert Rank(l.entries[i].state) > 0;
    }
  }

  lemma FrozenUnderPrepare(start: seq<Entry>)
    ensures StableUnderPrepare((l: Ledger) => Frozen(start, l.entries))
  {
    hide Rank;
  }

  lemma FrozenUnderCommit(start: seq<Entry>)
    ensures StableUnderCommit((l: Ledger) => Frozen(start, l.entries))
  {
    hide Registered, AlreadyCommitted;
  }

  /**
   `completed_steps` is never cleared. Once one of them was rolled back, or could not be, no later
   call can roll back: it ends COMPENSATION_FAILED instead, whatever the environment does; and one
   that succeeds writes COMMITTED over a journal whose earlier records stay as the rollback left them.
   */
  lemma NoSecondRollback<W>(env: Env<W>, s: Sys<W>, steps: seq<SagaStep>)
    requires Lasting(s) && Spoiled(s)
    ensures s.saga.Some?
    ensures var t := ExecuteSteps(env, s, steps);
      && t.end in {AllCommitted, Paused, RollbackFailed, Quarantined, Crashed}
      && (t.end == RollbackFailed ==> t.s.ledger.status == Some(SagaStatus.CompensationFailed))
      && (t.end == AllCommitted ==> t.s.ledger.status == Some(SagaStatus.Committed))
      && (t.end != Crashed ==> Lasting(t.s) && Spoiled(t.s))
      && Frozen(s.ledger.entries, t.s.ledger.entries)
  {
    hide ExecuteSteps, Spoiled, DistinctIds, AllReached, Frozen;
    ExecuteEnding(env, s, steps);
    ExecuteEnds(env, s, steps);
    CommittedStatus(env, s, steps);
    FrozenStable(s.ledger.entries);
    assert Frozen(s.ledger.entries, s.ledger.entries) by { FrozenSelf(s.ledger.entries); }
    ExecuteStepsKeeps(env, s, steps, (l: Ledger) => Frozen(s.ledger.entries, l.entries));
  }

  lemma FrozenSelf(a: seq<Entry>)
    ensures Frozen(a, a)
  {
  }

  /** A rollback that undid anything spoils every later one. */
  lemma RollbackSpoils<W>(env: Env<W>, s: Sys<W>)
    requires Lasting(s)
    ensures var t := Abandon(env, s);
      t.end in {Restored, RollbackFailed} && Completed(s) != [] ==> Lasting(t.s) && Spoiled(t.s)
  {
    hide Abandon, Spoiled, AllReached, DistinctIds;
    AbandonEnding(env, s);
    AbandonQuiet(env, s);
    QuietCompleted(s, Abandon(env, s).s);
  }
}
