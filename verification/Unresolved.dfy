/**
 Recovery where nobody tells: the sandbox offers neither a resolver nor idempotent repetition, as the
 program's own sandbox does not, or its resolver raises or answers what means nothing. Recovery then
 restores exactly when the newest record that is not settled is not one of a call whose outcome only
 the outside knows.
 */
module Unresolved {
  import opened Prelude
  import opened Sagas
  import opened Journal
  import opened Environment
  import opened CoordinatorSpec
  import opened Restoration
  import opened Rollback
  import opened Refusal
  import opened ForwardShape
  import opened RecoveryShape
  import opened CrashRecovery
  import opened Quarantine
  import opened Claims

  /** This answer tells nothing. */
  predicate Meaningless(value: Value) {
    !MeansApplied(value) && !MeansNotApplied(value)
  }

  /** Nobody can be asked, or whoever is asked raises or answers nothing that means anything. */
  ghost predicate Unaided<W(!new)>(env: Env<W>) {
    (env.hasResolver || !env.hasReplay) &&
    forall n: nat :: env.hasResolver && env.choice(n).resolver.Answers? ==>
      Meaningless(env.choice(n).resolver.ifApplied) && Meaningless(env.choice(n).resolver.ifNot)
  }

  lemma UnaidedResolution<W(!new)>(env: Env<W>, s: Sys<W>, e: Entry)
    requires Unaided(env) && !AlreadyCommitted(s.ledger, e.idempotencyKey)
    ensures var r := ResolveForwardEffect(env, s, e);
      r.verdict in {SaysUnknown, ResolverRaised} && r.s == s.(clock := r.s.clock)
    ensures var r := ResolveCompensation(env, s, e);
      r.verdict in {SaysUnknown, ResolverRaised} && r.s == s.(clock := r.s.clock)
  {
    hide MeansApplied, MeansNotApplied, NormaliseResolution;
    var r := env.choice(s.clock).resolver;
    if env.hasResolver && r.Answers? {
      AnswersAreUnderstood(r.ifApplied);
      AnswersAreUnderstood(r.ifNot);
    }
  }

  lemma UnaidedUndo<W(!new)>(env: Env<W>, s: Sys<W>, e: Entry)
    requires Unaided(env)
    ensures var r := ResolveCompensation(env, s, e);
      r.verdict in {SaysUnknown, ResolverRaised} && r.s == s.(clock := r.s.clock)
  {
    UnaidedResolution(env, s, e.(idempotencyKey := None));
  }

  /** Record j is the newest that is not settled, and it is in the middle of a call. */
  predicate InDoubtAt(entries: seq<Entry>, j: nat) {
    && j < |entries| && entries[j].state in {EffectState.Executing, EffectState.Compensating}
    && forall i | j < i < |entries| :: Settled(entries[i].state)
  }

  predicate InDoubt(entries: seq<Entry>) {
    exists j :: 0 <= j < |entries| && InDoubtAt(entries, j)
  }

  /** Recovery gave up on record j and changed nothing else: neither another record nor the world. */
  ghost predicate GivenUpAt<W>(s: Sys<W>, s': Sys<W>, j: nat) {
    var a, b := s.ledger.entries, s'.ledger.entries;
    && j < |a| && OnlyChanged(s, s', j)
    && b[j].state == (if a[j].state == EffectState.Executing then EffectState.Ambiguous else EffectState.CompensationFailed)
    && s'.world == s.world && s'.runs == s.runs && s'.undos == s.undos
    && s'.ledger.status == Some(SagaStatus.CompensationFailed)
    && DeadLettered(s.ledger, s'.ledger, a[j].stepName)
  }

  /** Recovery gave up on the newest unsettled record. */
  ghost predicate GivenUp<W>(s: Sys<W>, s': Sys<W>) {
    exists j :: 0 <= j < |s.ledger.entries| && InDoubtAt(s.ledger.entries, j) && GivenUpAt(s, s', j)
  }

  // ── One record ────────────────────────────────────────────────────

  lemma ForwardGivenUp<W(!new)>(env: Env<W>, s: Sys<W>, j: nat)
    requires Unaided(env) && j < |s.ledger.entries| && DistinctIds(s.ledger.entries)
    requires var e := s.ledger.entries[j];
      e.state == EffectState.Executing && !AlreadyCommitted(s.ledger, e.idempotencyKey)
    ensures var t := RecoverEffect(env, s, s.ledger.entries[j]);
      t.end == Quarantined && GivenUpAt(s, t.s, j)
  {
    hide DistinctIds, Unaided;
    var e := s.ledger.entries[j];
    MoveAtIs(s.ledger, j, MarkAmbiguous, OUTCOME_UNKNOWN);
    MoveAtIs(s.ledger, j, MarkAmbiguous, RESOLVER_FAILED);
    UnaidedResolution(env, s, e);
    hide MoveAt, ResolveForwardEffect;
    assert DeadLettered(s.ledger, RecoverEffect(env, s, e).s.ledger, e.stepName);
  }

  lemma UndoGivenUp<W(!new)>(env: Env<W>, s: Sys<W>, j: nat)
    requires Unaided(env) && j < |s.ledger.entries| && DistinctIds(s.ledger.entries)
    requires s.ledger.entries[j].state == EffectState.Compensating
    ensures var t := RecoverEffect(env, s, s.ledger.entries[j]);
      t.end == Quarantined && GivenUpAt(s, t.s, j)
  {
    hide DistinctIds, Unaided;
    var e := s.ledger.entries[j];
    MoveAtIs(s.ledger, j, FailCompensation, UNDO_UNKNOWN);
    MoveAtIs(s.ledger, j, FailCompensation, UNDO_RESOLVER_FAILED);
    UnaidedUndo(env, s, e);
    hide MoveAt, ResolveCompensation;
    assert DeadLettered(s.ledger, RecoverEffect(env, s, e).s.ledger, e.stepName);
  }

  /** A recovery that dies while it undoes an effect leaves its record COMPENSATING. */
  lemma DyingUndo<W(!new)>(env: Env<W>, s: Sys<W>, k: nat)
    requires k < |s.ledger.entries| && DistinctIds(s.ledger.entries)
    requires s.ledger.entries[k].state in {EffectState.Applied, EffectState.Committed}
    ensures var t := BeginRecoveryCompensation(env, s, s.ledger.entries[k]);
      t.end == Crashed ==> |t.s.ledger.entries| > k && t.s.ledger.entries[k].state == EffectState.Compensating
  {
    hide DistinctIds, ReplyOf, TakesEffect;
    MoveAtIs(s.ledger, k, BeginCompensation, "");
    hide MoveAt;
  }

  lemma RecordOutcome<W(!new)>(env: Env<W>, s: Sys<W>, w0: W, k: nat)
    requires Shape(env, s, w0, k) && k < |s.ledger.entries|
    requires InvertibleEntries(env, s.ledger.entries) && ReliableUndo(env) && Unaided(env)
    ensures var t := RecoverEffect(env, s, s.ledger.entries[k]);
      if s.ledger.entries[k].state in {EffectState.Executing, EffectState.Compensating}
      then t.end == Quarantined && GivenUpAt(s, t.s, k)
      else
        && Recovering(env, s, t, w0, k)
        && (t.end == Crashed ==> t.s.ledger.entries[k].state == EffectState.Compensating)
  {
    InForceAt(env, s, w0, k);
    ShapeIds(env, s, w0, k);
    hide Shape, RecoveryMove, BeginRecoveryCompensation, RecoverForward, RecoverUndo, ReliableUndo, Invertible, DistinctIds,
      GivenUpAt;
    match s.ledger.entries[k].state
    case Executing => ForwardGivenUp(env, s, k);
    case Compensating => UndoGivenUp(env, s, k);
    case Prepared => RecoveryMoveShape(env, s, w0, k, AbortPrepared);
    case Applied | Committed =>
      BeginRecoveryShape(env, s, w0, k, s.ledger.entries[k]);
      DyingUndo(env, s, k);
    case _ =>
  }

  // ── The backward walk ─────────────────────────────────────────────

  /** How the walk may end, s being where it began. */
  ghost predicate Walked<W(!new)>(env: Env<W>, s: Sys<W>, t: Turn<W>, w0: W) {
    match t.end
    case Proceed => SameMeta(s, t.s) && Undone(t.s, w0) && !InDoubt(s.ledger.entries)
    case Crashed =>
      && SameMeta(s, t.s) && Shaped(env, t.s, w0) && InvertibleEntries(env, t.s.ledger.entries)
      && InDoubt(t.s.ledger.entries) && !InDoubt(s.ledger.entries)
    case Quarantined => GivenUp(s, t.s)
    case _ => false
  }

  /** With everything before k committed and everything after it settled, only record k can be in doubt. */
  lemma DoubtIsAt<W>(env: Env<W>, s: Sys<W>, w0: W, k: nat)
    requires Shape(env, s, w0, k)
    ensures InDoubt(s.ledger.entries) <==>
      k < |s.ledger.entries| && s.ledger.entries[k].state in {EffectState.Executing, EffectState.Compensating}
    ensures k < |s.ledger.entries| && s.ledger.entries[k].state in {EffectState.Executing, EffectState.Compensating} ==>
      InDoubtAt(s.ledger.entries, k)
  {
    hide Replay, InForce, InFlight, AtMostOnce, OnlyJournaled, DistinctIds;
    var entries := s.ledger.entries;
    if k < |entries| && entries[k].state in {EffectState.Executing, EffectState.Compensating} {
      assert InDoubtAt(entries, k);
    }
    forall j | 0 <= j < |entries| && InDoubtAt(entries, j)
      ensures j == k
    {
      assert entries[j].state != EffectState.Committed && !Settled(entries[j].state);
    }
  }

  lemma {:induction false} WalkUnaided<W(!new)>(env: Env<W>, s: Sys<W>, w0: W, k: nat, effects: seq<Entry>)
    requires Shape(env, s, w0, k)
    requires InvertibleEntries(env, s.ledger.entries) && ReliableUndo(env) && Unaided(env)
    requires |effects| <= |s.ledger.entries| && effects == s.ledger.entries[..|effects|]
    requires forall j | |effects| <= j < |s.ledger.entries| :: Settled(s.ledger.entries[j].state)
    ensures Walked(env, s, RecoverEffects(env, s, effects), w0)
    decreases |effects|
  {
    hide Shape, RecoverEffect, ReliableUndo, Unaided, Invertible, GivenUpAt, Undone, InDoubtAt;
    DoubtIsAt(env, s, w0, k);
    if effects == [] {
      SettledIsUndone(env, s, w0, k);
    } else {
      var i := |effects| - 1;
      AtPosition(env, s, w0, k, i);
      assert effects[i] == s.ledger.entries[i];
      if !Shape(env, s, w0, i) {
        SettledIsSkipped(env, s, effects[i]);
        WalkUnaided(env, s, w0, k, effects[..i]);
      } else {
        DoubtIsAt(env, s, w0, i);
        RecordOutcome(env, s, w0, i);
        var t := RecoverEffect(env, s, effects[i]);
        if t.end != Quarantined {
          InvertibleAfter(env, s, t.s, i);
          DoubtIsAt(env, t.s, w0, i);
          if t.end == Proceed {
            assert t.s.ledger.entries[..i] == effects[..i];
            WalkUnaided(env, t.s, w0, i, effects[..i]);
          }
        }
      }
    }
  }

  // ── Recovery ──────────────────────────────────────────────────────

  /** A crash in the rollback after a refusal: its record is the newest, and in doubt. */
  lemma WaitingGivenUp<W(!new)>(env: Env<W>, s: Sys<W>, w0: W)
    requires Waiting(env, s, w0) && Unaided(env)
    ensures var n := |s.ledger.entries| - 1;
      var t := RecoverEffects(env, s, s.ledger.entries);
      n >= 0 && InDoubtAt(s.ledger.entries, n) && t.end == Quarantined && GivenUpAt(s, t.s, n)
  {
    hide Shape, RecoverEffect, DistinctIds, GivenUpAt, Unaided, AlreadyCommitted;
    var n := |s.ledger.entries| - 1;
    var k: nat :| Shape(env, Parked(s), w0, k);
    ShapeIds(env, Parked(s), w0, k);
    ParkedIds(s);
    ForwardGivenUp(env, s, n);
  }

  /**
   Recovery without help, from wherever a saga was stopped. It restores the initial world exactly
   when the newest unsettled record is not EXECUTING or COMPENSATING. Otherwise it gives up on that
   very record and changes nothing else. A recovery that dies has left such a record behind.
   */
  lemma UnaidedRecoveryIff<W(!new)>(env: Env<W>, s: Sys<W>, w0: W)
    requires Recoverable(env, s, w0) && ReliableUndo(env) && Unaided(env)
    ensures var entries, t := s.ledger.entries, Recover(env, s);
      && t.end in {Restored, Quarantined, Crashed}
      && (t.end == Quarantined <==> InDoubt(entries))
      && (t.end == Quarantined ==> GivenUp(s, t.s))
      && (t.end == Restored ==> Undone(t.s, w0) && t.s.ledger.status == Some(SagaStatus.RolledBack))
      && (t.end == Crashed ==> Recoverable(env, t.s, w0) && InDoubt(t.s.ledger.entries))
  {
    hide Shape, RecoverEffects, InvertibleEntries, ReliableUndo, Unaided, Waiting, InDoubtAt;
    var s' := s.(saga := None);
    assert forall j: nat, u: Sys<W> | GivenUpAt(s', u, j) :: GivenUpAt(s, u, j) by { SameGivenUp(s); }
    hide GivenUpAt;
    if Shaped(env, s, w0) {
      var k: nat :| Shape(env, s, w0, k);
      ShapeCore(env, s, s', w0, k);
      if s.ledger.entries == [] {
        SettledIsUndone(env, s', w0, k);
      } else {
        assert s.ledger.entries[..|s.ledger.entries|] == s.ledger.entries;
        WalkUnaided(env, s', w0, k, s.ledger.entries);
      }
    } else {
      WaitingCore(env, s, s', w0);
      WaitingGivenUp(env, s', w0);
    }
  }

  lemma SameGivenUp<W>(s: Sys<W>)
    ensures forall j: nat, u: Sys<W> | GivenUpAt(s.(saga := None), u, j) :: GivenUpAt(s, u, j)
  {
  }

  /** Where a saga is stopped, the world is one it visited on its way forward; with a record in doubt, the one before or after it. */
  lemma StoppedWorldIsVisited<W>(env: Env<W>, s: Sys<W>, w0: W)
    requires Stopped(env, s, w0)
    ensures Visited(env, s, w0)
    ensures Shaped(env, s, w0) ==> forall j | 0 <= j < |s.ledger.entries| && InDoubtAt(s.ledger.entries, j) ::
      Replay(env, s.ledger.entries, j, w0) == Some(s.world) || Replay(env, s.ledger.entries, j + 1, w0) == Some(s.world)
  {
    hide InFlight, InForce, AtMostOnce, OnlyJournaled, DistinctIds, Replay;
    if Shaped(env, s, w0) {
      var k: nat :| Shape(env, s, w0, k);
      assert Live(s, k) in {k, k + 1} && Live(s, k) <= |s.ledger.entries|;
      assert Replay(env, s.ledger.entries, Live(s, k), w0) == Some(s.world);
      forall j | 0 <= j < |s.ledger.entries| && InDoubtAt(s.ledger.entries, j)
        ensures j == k
      {
        CommittedBeyond(s.ledger.entries, k, j);
      }
    } else {
      var p := Parked(s);
      var k: nat :| Shape(env, p, w0, k);
      var m := Live(p, k);
      assert m <= |p.ledger.entries| && Replay(env, p.ledger.entries, m, w0) == Some(s.world);
      ReplaySameActions(env, p.ledger.entries, s.ledger.entries, m, w0);
    }
  }

  /** What a saga without help comes to, w0 being the world before its first call. */
  ghost predicate UnaidedEnd<W(!new)>(env: Env<W>, life: Turn<W>, w0: W) {
    match life.end
    case Restored => Undone(life.s, w0) && life.s.ledger.status == Some(SagaStatus.RolledBack)
    case Quarantined => env.refusalRaises && RefusedEnd(env, life.s, w0) && life.s.world == w0
    case Crashed =>
      var recovery := Recover(env, life.s);
      if life.s.ledger.status == Some(SagaStatus.Committed) then recovery == Turn(life.s.(saga := None), Proceed)
      else
        && recovery.end in {Restored, Quarantined, Crashed}
        && (recovery.end == Quarantined <==> InDoubt(life.s.ledger.entries))
        && (recovery.end == Restored ==>
              Undone(recovery.s, w0) && recovery.s.ledger.status == Some(SagaStatus.RolledBack))
        && (recovery.end == Quarantined ==>
              GivenUp(life.s, recovery.s) && recovery.s.world == life.s.world && Visited(env, life.s, w0))
        && (recovery.end == Crashed ==> Recoverable(env, recovery.s, w0) && InDoubt(recovery.s.ledger.entries))
    case _ => life.end in {Proceed, AllCommitted, Paused}
  }

  /** The world is the one after some number of the forward steps. */
  ghost predicate Visited<W>(env: Env<W>, s: Sys<W>, w0: W) {
    exists m :: 0 <= m <= |s.ledger.entries| && Replay(env, s.ledger.entries, m, w0) == Some(s.world)
  }

  /**
   A fresh saga without help, of any number of calls: it commits, pauses, is rolled back, or is
   quarantined because a refusal was raised, with the initial world. If its process dies at a
   checkpoint under a live status, recovery restores the initial world exactly when no call was
   under way, and otherwise leaves the world where the process left it, at a state the saga visited.
   */
  lemma UnaidedSaga<W(!new)>(
    env: Env<W>, s: Sys<W>, goal: string, tenantId: string, now: real, calls: seq<Call>)
    requires Fresh(s) && TruthfulCalls(env) && ReliableUndo(env) && Unaided(env)
    requires forall i | 0 <= i < |calls| :: Invertibles(env, calls[i].steps)
    ensures UnaidedEnd(env, ServeCalls(env, Start(s, goal, tenantId, now), calls), s.world)
  {
    hide ExecuteSteps, Serve, ServeCalls, Ready, Start, Undone, Stopped, PausedDurably, LeftAt, InvertibleEntries,
      Invertibles, TruthfulCalls, ReliableUndo, Unaided, InDoubt, InDoubtAt, Visited, RecoverEffects, Resolvable;
    var t := Start(s, goal, tenantId, now);
    FreshIsReady(env, s, goal, tenantId, now);
    ServeCallsEnd(env, t, s.world, calls);
    var life := ServeCalls(env, t, calls);
    if life.end == Crashed {
      if life.s.ledger.status == Some(SagaStatus.Committed) {
        CommittedIsSkipped(env, life.s);
      } else {
        hide Recover;
        UnaidedRecoveryIff(env, life.s, s.world);
        StoppedWorldIsVisited(env, life.s, s.world);
      }
    }
  }

  lemma CommittedIsSkipped<W>(env: Env<W>, s: Sys<W>)
    requires s.ledger.status == Some(SagaStatus.Committed)
    ensures Recover(env, s) == Turn(s.(saga := None), Proceed)
  {
    hide RecoverEffects;
  }

  // ── A refusal ─────────────────────────────────────────────────────

  lemma {:induction false} NoCrashInRollback<W>(env: Env<W>, s: Sys<W>, completed: seq<SagaStep>)
    requires env.choice == Smooth()
    ensures CompensateAll(env, s, completed).end != Crashed
    decreases |completed|
  {
    hide MoveAt, IndexOf, ExecuteCompensation;
    if completed != [] {
      var t := CompensateStep(env, s, completed[|completed| - 1]);
      if t.end == Proceed {
        NoCrashInRollback(env, t.s, completed[..|completed| - 1]);
      }
    }
  }

  /** A new step that is submitted and passes the gates, but whose tool refuses it. */
  ghost predicate RefusedAtCall<W>(env: Env<W>, s: Sys<W>, step: SagaStep) {
    && IndexOf(s.ledger.entries, step.stepId) == |s.ledger.entries|
    && !AlreadyCommitted(s.ledger, step.idempotencyKey)
    && (step.requiresApproval ==> step.approved)
    && env.act(step.action, s.world).None?
  }

  lemma SmoothQuarantine<W>(env: Env<W>, s: Sys<W>, step: SagaStep)
    requires env.choice == Smooth()
    ensures var t := AbandonAmbiguous(env, s, step); t.end == Quarantined && QuietLedger(s.ledger, t.s.ledger)
  {
    hide CompensateAll, MoveAt, QuietLedger;
    NoCrashInRollback(env, WithStatus(s, SagaStatus.Compensating), Completed(s));
    AbandonAmbiguousQuiet(env, s, step);
  }

  lemma RaisedCall<W>(env: Env<W>, s: Sys<W>, step: SagaStep, l: Ledger, l1: Ledger)
    requires s.saga.Some? && env.choice == Smooth() && env.act(step.action, s.world).None? && env.refusalRaises
    requires PrepareEffect(s.ledger, step) == Some(l) && MoveAt(l, step.stepId, Claim) == Some(l1)
    ensures PrepareStep(env, Tick(s), step) == AbandonAmbiguous(env, Tick(Tick(Tick(Tick(s)))).(ledger := l1), step)
  {
    hide PrepareEffect, MoveAt, RecordStep, Abandon, AbandonAmbiguous;
  }

  lemma RefusedCall<W>(env: Env<W>, s: Sys<W>, step: SagaStep)
    requires s.saga.Some? && RefusedAtCall(env, s, step) && env.choice == Smooth() && env.refusalRaises
    ensures var t := ExecuteSteps(env, s, [step]);
      && t.end == Quarantined
      && |t.s.ledger.entries| == |s.ledger.entries| + 1
      && QuietEntry(NewEntry(step).(state := EffectState.Executing), t.s.ledger.entries[|s.ledger.entries|])
  {
    hide PrepareEffect, MoveAt, PrepareStep, AbandonAmbiguous, Abandon, IndexOf, WithNew, WithClaim, QuietEntry;
    NewClaim(s.ledger, step);
    var l1 := WithClaim(s.ledger, step);
    var s4 := Tick(Tick(Tick(Tick(s)))).(ledger := l1);
    RaisedCall(env, s, step, WithNew(s.ledger, step), l1);
    assert AttemptStep(env, s, [step]) == AbandonAmbiguous(env, s4, step);
    SmoothQuarantine(env, s4, step);
  }

  lemma SmoothIsTruthful<W(!new)>(env: Env<W>)
    requires env.choice == Smooth()
    ensures TruthfulCalls(env) && ReliableUndo(env)
  {
  }

  /**
   A refusal by exception, nothing else going wrong: although the call changed nothing, its record
   ends AMBIGUOUS and the saga COMPENSATION_FAILED, after everything completed before was undone.
   */
  lemma RefusalIsQuarantined<W(!new)>(env: Env<W>, s: Sys<W>, w0: W, step: SagaStep)
    requires Ready(env, s, w0) && RefusedAtCall(env, s, step) && env.choice == Smooth() && env.refusalRaises
    requires Invertible(env, step.action, step.compensation)
    ensures s.saga.Some?
    ensures var n, t := |s.ledger.entries|, ExecuteSteps(env, s, [step]);
      && t.end == Quarantined && UndoneBeforeLast(t.s, w0)
      && |t.s.ledger.entries| == n + 1 && t.s.ledger.entries[n].stepId == step.stepId
      && t.s.ledger.entries[n].state == EffectState.Ambiguous
      && t.s.ledger.status == Some(SagaStatus.CompensationFailed)
  {
    hide Ready, ExecuteSteps, RefusedAtCall, Invertible, TruthfulCalls, ReliableUndo, UndoneBeforeLast, LeftAt, Smooth,
      StuckRollback, Survives, Undone;
    SmoothIsTruthful(env);
    ReadyIsShaped(env, s, w0);
    ExecuteStepsShape(env, s, w0, [step]);
    RefusedCall(env, s, step);
  }
}
