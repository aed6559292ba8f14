/**
 The main theorems about the coordinator in a truthful environment: whatever a saga does until
 the process dies, recovery restores the world; and where a rollback stops when it cannot go on.
 */
module CrashRecovery {
  import opened Prelude
  import opened Sagas
  import opened Journal
  import opened StepCodec
  import opened Environment
  import opened CoordinatorSpec
  import opened Restoration
  import opened Refusal
  import opened ForwardShape
  import opened RecoveryShape

  /** What happens to a paused saga: it is approved, rejected, or the process is restarted first. */
  datatype Decision = Approve | Decline | Restart

  /** A saga's whole life in one process after another, until it ends, pauses for good or crashes. */
  function Serve<W>(env: Env<W>, t: Turn<W>, decisions: seq<Decision>): Turn<W>
    decreases |decisions|
  {
    if t.end != Paused || decisions == [] then t
    else
      var next := match decisions[0]
                  case Approve => Resume(env, t.s)
                  case Decline => Reject(env, t.s)
                  case Restart => Recover(env, t.s);
      Serve(env, next, decisions[1..])
  }

  /** Recovery in a new process; when that process dies too, in up to `attempts` further ones. */
  function RecoverRepeatedly<W>(env: Env<W>, s: Sys<W>, attempts: nat): Turn<W>
    decreases attempts
  {
    var t := Recover(env, s);
    if t.end == Crashed && attempts > 0 then RecoverRepeatedly(env, t.s, attempts - 1) else t
  }

  /** Nothing has happened yet. */
  ghost predicate Fresh<W>(s: Sys<W>) {
    s.ledger == EMPTY_LEDGER && s.saga.None? && s.runs == multiset{} && s.undos == multiset{}
  }

  /** Compensations undo what their actions do, and calls and resolvers tell the truth about them. */
  ghost predicate Truthful<W(!new)>(env: Env<W>) {
    TruthfulCalls(env) && ReliableUndo(env) && TruthfulResolver(env)
  }

  // ── Between operations ────────────────────────────────────────────

  /** `recover` will work on the journal rather than skip the saga or restore a pause. */
  predicate Resolvable(l: Ledger) {
    Incomplete(l) && !(l.status == Some(SagaStatus.AwaitingApproval) && l.metadata.pendingSteps != [])
  }

  /** What survives a crash is enough for recovery. */
  ghost predicate Recoverable<W(!new)>(env: Env<W>, s: Sys<W>, w0: W) {
    Stopped(env, s, w0) && InvertibleEntries(env, s.ledger.entries) && Resolvable(s.ledger)
  }

  /** The pause is on record: the pending steps can be read back from the metadata. */
  ghost predicate PausedDurably<W(!new)>(env: Env<W>, s: Sys<W>, w0: W) {
    && Ready(env, s, w0)
    && s.saga.value.status == SagaStatus.AwaitingApproval && s.saga.value.pendingSteps != []
    && Invertibles(env, s.saga.value.pendingSteps)
    && s.ledger.status == Some(SagaStatus.AwaitingApproval)
    && s.ledger.metadata.pendingSteps == SerializeSteps(s.saga.value.pendingSteps)
  }

  ghost predicate RunEnd<W(!new)>(env: Env<W>, t: Turn<W>, w0: W) {
    match t.end
    case Crashed => Recoverable(env, t.s, w0)
    case Paused => PausedDurably(env, t.s, w0)
    case Restored => Undone(t.s, w0) && t.s.ledger.status == Some(SagaStatus.RolledBack)
    case RollbackFailed => StuckRollback(env, t.s, w0)
    case Quarantined => env.refusalRaises && RefusedEnd(env, t.s, w0)
    case AllCommitted => Ready(env, t.s, w0) && t.s.ledger.status == Some(SagaStatus.Committed)
    case _ => false
  }

  // ── The operations ────────────────────────────────────────────────

  lemma CrashIsRecoverable<W(!new)>(env: Env<W>, s: Sys<W>, s': Sys<W>, w0: W)
    requires Survives(env, s, s', w0) && Resolvable(s.ledger)
    ensures Recoverable(env, s', w0)
  {
    hide Stopped, InvertibleEntries;
  }

  /** A pause always writes what it keeps in memory. */
  lemma {:induction false} PauseIsDurable<W>(env: Env<W>, s: Sys<W>, steps: seq<SagaStep>)
    requires s.saga.Some?
    ensures var t := ExecuteSteps(env, s, steps);
      t.end == Paused ==>
        && t.s.saga.Some? && t.s.saga.value.pendingSteps != []
        && t.s.saga.value.status == SagaStatus.AwaitingApproval
        && t.s.ledger.status == Some(SagaStatus.AwaitingApproval)
        && t.s.ledger.metadata.pendingSteps == SerializeSteps(t.s.saga.value.pendingSteps)
    decreases |steps|
  {
    hide PrepareStep, Abandon, SerializeSteps;
    if steps == [] {
    } else if AlreadyCommitted(s.ledger, steps[0].idempotencyKey) {
      PauseIsDurable(env, s, steps[1..]);
    } else {
      AbandonNeverPauses(env, Tick(s));
      PrepareNeverPauses(env, Tick(s), steps[0]);
      var t := AttemptStep(env, s, steps);
      if t.end == Proceed {
        PauseIsDurable(env, t.s, steps[1..]);
      }
    }
  }

  lemma AbandonNeverPauses<W>(env: Env<W>, s: Sys<W>)
    ensures Abandon(env, s).end in {Restored, Crashed, RollbackFailed}
  {
    CompensateAllEnds(env, WithStatus(s, SagaStatus.Compensating), Completed(s));
  }

  lemma {:induction false} CompensateAllEnds<W>(env: Env<W>, s: Sys<W>, completed: seq<SagaStep>)
    ensures CompensateAll(env, s, completed).end in {Restored, Crashed, RollbackFailed}
    decreases |completed|
  {
    hide CompensateStep;
    if completed != [] {
      var t := CompensateStep(env, s, completed[|completed| - 1]);
      assert t.end in {Proceed, Crashed, RollbackFailed} by {
        CompensateStepEnds(env, s, completed[|completed| - 1]);
      }
      if t.end == Proceed {
        CompensateAllEnds(env, t.s, completed[..|completed| - 1]);
      }
    }
  }

  lemma CompensateStepEnds<W>(env: Env<W>, s: Sys<W>, step: SagaStep)
    ensures CompensateStep(env, s, step).end in {Proceed, Crashed, RollbackFailed}
  {
    hide IndexOf, MoveAt, ExecuteCompensation;
  }

  lemma PrepareNeverPauses<W>(env: Env<W>, s: Sys<W>, step: SagaStep)
    requires s.saga.Some?
    ensures PrepareStep(env, s, step).end in {Proceed, Restored, Crashed, RollbackFailed, Quarantined}
  {
    hide Abandon, MoveAt, PrepareEffect, CommitEffect, Execute;
    forall x: Sys<W>
      ensures Abandon(env, x).end in {Restored, Crashed, RollbackFailed}
    {
      AbandonNeverPauses(env, x);
    }
  }

  lemma ExecuteEnd<W(!new)>(env: Env<W>, s: Sys<W>, w0: W, steps: seq<SagaStep>)
    requires Ready(env, s, w0) && TruthfulCalls(env) && Invertibles(env, steps) && Resolvable(s.ledger)
    ensures s.saga.Some? && RunEnd(env, ExecuteSteps(env, s, steps), w0)
  {
    hide Ready, ExecuteSteps, StuckRollback, Undone, Stopped, RefusedEnd, InvertibleEntries, Resolvable, Invertible, Incomplete;
    ReadyIsShaped(env, s, w0);
    ExecuteStepsShape(env, s, w0, steps);
    PauseIsDurable(env, s, steps);
    var t := ExecuteSteps(env, s, steps);
    if t.end == Crashed {
      CrashIsRecoverable(env, s, t.s, w0);
    }
  }

  lemma ResumeEnd<W(!new)>(env: Env<W>, s: Sys<W>, w0: W)
    requires PausedDurably(env, s, w0) && TruthfulCalls(env)
    ensures RunEnd(env, Resume(env, s), w0)
  {
    var pending := s.saga.value.pendingSteps;
    var saga := s.saga.value.(pendingSteps := [], status := SagaStatus.Running);
    var l := WriteStatus(s.ledger, SagaStatus.Running);
    var s' := s.(saga := Some(saga), ledger := l.(metadata := l.metadata.(pendingSteps := [])));
    var steps := pending[0 := pending[0].(approved := true)];
    assert Invertibles(env, steps) by {
      hide Invertible;
      assert forall i | 0 <= i < |steps| ::
        steps[i].action == pending[i].action && steps[i].compensation == pending[i].compensation;
    }
    hide Shape, Ready, ExecuteSteps, StuckRollback, Undone, Stopped, RefusedEnd, InvertibleEntries, Invertibles, RunEnd;
    ReadyCore(env, s, s', w0);
    ExecuteEnd(env, s', w0, steps);
  }

  lemma RejectEnd<W(!new)>(env: Env<W>, s: Sys<W>, w0: W)
    requires PausedDurably(env, s, w0) && TruthfulCalls(env)
    ensures RunEnd(env, Reject(env, s), w0) && Reject(env, s).end in {Crashed, Restored, RollbackFailed}
  {
    hide Ready, SerializeSteps, Invertibles;
    ReadyIsShaped(env, s, w0);
    var saga := s.saga.value.(pendingSteps := []);
    var l := WriteStatus(s.ledger, SagaStatus.Compensating);
    var s' := s.(saga := Some(saga), ledger := l.(metadata := l.metadata.(pendingSteps := [])));
    hide Shape, RollBack, Ready, Abandon, StuckRollback, Undone, Stopped, RefusedEnd, InvertibleEntries;
    ReadyCore(env, s, s', w0);
    ReadyAbandon(env, s', s', w0);
    assert Reject(env, s) == RollBack(env, s', saga.completedSteps);
    assert Abandon(env, s') == RollBack(env, s', saga.completedSteps) by { AbandonIs(env, s'); }
    if Reject(env, s).end == Crashed {
      CrashIsRecoverable(env, s', Reject(env, s).s, w0);
    }
  }

  lemma AbandonIs<W>(env: Env<W>, s: Sys<W>)
    ensures Abandon(env, s) == RollBack(env, s, Completed(s))
  {
  }

  lemma {:induction false} CommittedStepsName(entries: seq<Entry>)
    requires forall i | 0 <= i < |entries| :: entries[i].state == EffectState.Committed
    ensures |CommittedSteps(entries)| == |entries| && Names(CommittedSteps(entries), entries)
  {
    if entries != [] {
      CommittedStepsName(entries[1..]);
      var tail := CommittedSteps(entries[1..]);
      assert CommittedSteps(entries) == [StepFromEffect(entries[0])] + tail;
      forall i | 1 <= i < |entries|
        ensures NamesEntry(CommittedSteps(entries)[i], entries[i])
      {
        assert NamesEntry(tail[i - 1], entries[1..][i - 1]);
      }
    }
  }

  lemma RestartEnd<W(!new)>(env: Env<W>, s: Sys<W>, w0: W)
    requires PausedDurably(env, s, w0)
    ensures RunEnd(env, Recover(env, s), w0) && Recover(env, s).end == Paused
  {
    hide DeserializeSteps, Invertible, CommittedSteps, Shape, RecoverEffects;
    var pending := s.saga.value.pendingSteps;
    StepsRoundTrip(pending);
    assert SerializeSteps(pending) != [];
    hide SerializeSteps;
    CommittedBefore(env, s, w0, |s.ledger.entries|);
    CommittedStepsName(s.ledger.entries);
    var t := Recover(env, s);
    assert t.end == Paused && t.s.saga.value.pendingSteps == pending;
    assert t.s.saga.value.completedSteps == CommittedSteps(s.ledger.entries);
    ShapeCore(env, s, t.s, w0, |s.ledger.entries|);
  }

  lemma {:induction false} ServeEnd<W(!new)>(env: Env<W>, t: Turn<W>, w0: W, decisions: seq<Decision>)
    requires RunEnd(env, t, w0) && TruthfulCalls(env)
    ensures RunEnd(env, Serve(env, t, decisions), w0)
    decreases |decisions|
  {
    if t.end == Paused && decisions != [] {
      hide PausedDurably, Resume, Reject, Recover, Ready, StuckRollback, Undone, Stopped, RefusedEnd, Recoverable, ReliableUndo;
      match decisions[0] {
        case Approve => ResumeEnd(env, t.s, w0); ServeEnd(env, Resume(env, t.s), w0, decisions[1..]);
        case Decline => RejectEnd(env, t.s, w0); ServeEnd(env, Reject(env, t.s), w0, decisions[1..]);
        case Restart => RestartEnd(env, t.s, w0); ServeEnd(env, Recover(env, t.s), w0, decisions[1..]);
      }
    }
  }

  // ── Recovery ──────────────────────────────────────────────────────

  lemma RecoverEnd<W(!new)>(env: Env<W>, s: Sys<W>, w0: W)
    requires Recoverable(env, s, w0) && ReliableUndo(env) && TruthfulResolver(env)
    ensures var t := Recover(env, s);
      && t.end in {Crashed, Restored}
      && (t.end == Crashed ==> Recoverable(env, t.s, w0))
      && (t.end == Restored ==> Undone(t.s, w0) && t.s.ledger.status == Some(SagaStatus.RolledBack))
  {
    hide Shape, RecoverEffects, InvertibleEntries, ReliableUndo, TruthfulResolver, Waiting;
    var s' := s.(saga := None);
    if Shaped(env, s, w0) {
      var k: nat :| Shape(env, s, w0, k);
      ShapeCore(env, s, s', w0, k);
      if s.ledger.entries == [] {
        SettledIsUndone(env, s', w0, k);
      } else {
        assert s.ledger.entries[..|s.ledger.entries|] == s.ledger.entries;
        RecoverEffectsShape(env, s', w0, k, s.ledger.entries);
      }
    } else {
      WaitingCore(env, s, s', w0);
      RecoverWaitingShape(env, s', w0);
    }
  }

  lemma {:induction false} RepeatedRecoveryEnd<W(!new)>(env: Env<W>, s: Sys<W>, w0: W, attempts: nat)
    requires Recoverable(env, s, w0) && ReliableUndo(env) && TruthfulResolver(env)
    ensures var t := RecoverRepeatedly(env, s, attempts);
      && t.end in {Crashed, Restored}
      && (t.end == Crashed ==> Recoverable(env, t.s, w0))
      && (t.end == Restored ==> Undone(t.s, w0) && t.s.ledger.status == Some(SagaStatus.RolledBack))
    decreases attempts
  {
    hide Recover, Recoverable, Undone, ReliableUndo, TruthfulResolver;
    RecoverEnd(env, s, w0);
    var t := Recover(env, s);
    if t.end == Crashed && attempts > 0 {
      RepeatedRecoveryEnd(env, t.s, w0, attempts - 1);
    }
  }

  // ── Main theorems ─────────────────────────────────────────────────

  lemma FreshIsReady<W(!new)>(env: Env<W>, s: Sys<W>, goal: string, tenantId: string, now: real)
    requires Fresh(s)
    ensures var t := Start(s, goal, tenantId, now);
      t.end == Proceed && Ready(env, t.s, s.world) && Resolvable(t.s.ledger)
  {
  }

  /**
   A fresh saga is executed, with any approvals, rejections and graceful restarts, in a truthful
   environment. It commits, pauses, or is rolled back; a saga reported as rolled back has left no
   trace, and one quarantined because a refusal was raised has left the initial world. A process
   that dies at any checkpoint leaves a state from which any number of dying recoveries and one
   that lives restore the initial world: every record settled, every effect that took place undone
   exactly once, and the status ROLLED_BACK.
   */
  lemma CrashAnywhereThenRestored<W(!new)>(
    env: Env<W>, s: Sys<W>, goal: string, tenantId: string, now: real,
    steps: seq<SagaStep>, decisions: seq<Decision>, attempts: nat)
    requires Fresh(s) && Truthful(env) && Invertibles(env, steps)
    ensures var started := Start(s, goal, tenantId, now).s;
      var life := Serve(env, ExecuteSaga(env, started, steps), decisions);
      && life.end in {AllCommitted, Paused, Restored, Crashed, Quarantined}
      && (life.end == Restored ==> Undone(life.s, s.world) && life.s.ledger.status == Some(SagaStatus.RolledBack))
      && (life.end == Quarantined ==> env.refusalRaises && UndoneBeforeLast(life.s, s.world))
      && (life.end == Crashed ==>
            var recovery := RecoverRepeatedly(env, life.s, attempts);
            && recovery.end in {Crashed, Restored}
            && (recovery.end == Restored ==>
                  Undone(recovery.s, s.world) && recovery.s.ledger.status == Some(SagaStatus.RolledBack)))
  {
    var started := Start(s, goal, tenantId, now).s;
    FreshIsReady(env, s, goal, tenantId, now);
    hide Ready, ExecuteSteps, Serve, RecoverRepeatedly, Undone, Recoverable, Resolvable, PausedDurably, StuckAt, Start,
      UndoneBeforeLast, Invertibles, TruthfulCalls, ReliableUndo, TruthfulResolver, LeftAt;
    ExecuteEnd(env, started, s.world, steps);
    ServeEnd(env, ExecuteSaga(env, started, steps), s.world, decisions);
    var life := Serve(env, ExecuteSaga(env, started, steps), decisions);
    if life.end == Crashed {
      RepeatedRecoveryEnd(env, life.s, s.world, attempts);
    }
  }

  /**
   The shape of the journal at every checkpoint and every pause of a fresh saga: a prefix of
   COMMITTED records, at most one record in flight, then settled ones; and the world is the fold
   of the actions of exactly the records whose effects are in force. Where refusals are raised,
   there may be one record more: the last, EXECUTING without effect.
   */
  lemma JournalShapeAtEveryStop<W(!new)>(
    env: Env<W>, s: Sys<W>, goal: string, tenantId: string, now: real,
    steps: seq<SagaStep>, decisions: seq<Decision>)
    requires Fresh(s) && TruthfulCalls(env) && Invertibles(env, steps)
    ensures var life := Serve(env, ExecuteSaga(env, Start(s, goal, tenantId, now).s, steps), decisions);
      life.end in {Crashed, Paused, AllCommitted} ==>
        Shaped(env, life.s, s.world) || (life.end == Crashed && env.refusalRaises && Waiting(env, life.s, s.world))
  {
    var started := Start(s, goal, tenantId, now).s;
    FreshIsReady(env, s, goal, tenantId, now);
    hide Ready, ExecuteSteps, Serve, Undone, Shaped, Resolvable, StuckRollback, Start, Invertibles, TruthfulCalls,
      RefusedEnd, Waiting;
    ExecuteEnd(env, started, s.world, steps);
    ServeEnd(env, ExecuteSaga(env, started, steps), s.world, decisions);
    var life := Serve(env, ExecuteSaga(env, started, steps), decisions);
    if life.end in {Paused, AllCommitted} {
      ReadyIsShaped(env, life.s, s.world);
    }
  }

  /**
   A rollback whose compensations fail cleanly stops on a state the saga visited on its way
   forward: the world right after step j, records before j COMMITTED, j COMPENSATION_FAILED, later
   completed ones COMPENSATED. One that does not fail ends in the initial world. The k completed
   steps may be followed by the record of the step that failed, and by older settled ones.
   */
  lemma RollbackLandsOnAVisitedState<W(!new)>(env: Env<W>, s: Sys<W>, w0: W, k: nat)
    requires s.saga.Some? && Shape(env, s, w0, k) && InvertibleEntries(env, s.ledger.entries) && CleanUndo(env)
    requires |s.saga.value.completedSteps| == k && Names(s.saga.value.completedSteps, s.ledger.entries)
    requires k < |s.ledger.entries| ==> Settled(s.ledger.entries[k].state)
    ensures var t := RollBack(env, s, s.saga.value.completedSteps);
      && t.end in {Restored, Crashed, RollbackFailed}
      && (t.end == Restored ==> Undone(t.s, w0) && k <= |t.s.ledger.entries|
                                && forall i | 0 <= i < k :: t.s.ledger.entries[i].state == EffectState.Compensated)
      && (t.end == RollbackFailed ==> exists j :: StuckAt(env, t.s, w0, j, k))
  {
    hide Shape, CompensateAll, Undone, StuckAt;
    ShapeCore(env, s, WithStatus(s, SagaStatus.Compensating), w0, k);
    CompensateAllShape(env, WithStatus(s, SagaStatus.Compensating), w0, s.saga.value.completedSteps, k);
  }

  // ── A saga of many calls ──────────────────────────────────────────

  /** One call of `execute_saga`, and what is decided about its pauses. */
  datatype Call = Call(steps: seq<SagaStep>, decisions: seq<Decision>)

  /** The saga is called again as long as its calls commit. */
  function ServeCalls<W>(env: Env<W>, t: Turn<W>, calls: seq<Call>): Turn<W>
    decreases |calls|
  {
    if calls == [] || t.end !in {Proceed, AllCommitted} then t
    else ServeCalls(env, Serve(env, ExecuteSaga(env, t.s, calls[0].steps), calls[0].decisions), calls[1..])
  }

  /** Recovery works on the journal, or the saga counts as committed, from the call before. */
  predicate LiveOrCommitted(l: Ledger) {
    Resolvable(l) || l.status == Some(SagaStatus.Committed)
  }

  ghost predicate CallsEnd<W(!new)>(env: Env<W>, t: Turn<W>, w0: W) {
    match t.end
    case Proceed => Ready(env, t.s, w0) && LiveOrCommitted(t.s.ledger)
    case Crashed => Stopped(env, t.s, w0) && InvertibleEntries(env, t.s.ledger.entries) && LiveOrCommitted(t.s.ledger)
    case _ => RunEnd(env, t, w0)
  }

  /** A call that starts on a live or committed saga, up to its first pause. */
  lemma FirstPartEnd<W(!new)>(env: Env<W>, s: Sys<W>, w0: W, steps: seq<SagaStep>)
    requires Ready(env, s, w0) && TruthfulCalls(env) && Invertibles(env, steps) && LiveOrCommitted(s.ledger)
    ensures s.saga.Some?
    ensures var t := ExecuteSteps(env, s, steps); CallsEnd(env, t, w0) && t.end != Proceed
  {
    hide Ready, ExecuteSteps, StuckRollback, Undone, Stopped, RefusedEnd, InvertibleEntries, Invertible;
    ReadyIsShaped(env, s, w0);
    ExecuteStepsShape(env, s, w0, steps);
    PauseIsDurable(env, s, steps);
  }

  lemma ServedCallEnd<W(!new)>(env: Env<W>, t: Turn<W>, w0: W, decisions: seq<Decision>)
    requires CallsEnd(env, t, w0) && t.end != Proceed && TruthfulCalls(env)
    ensures var u := Serve(env, t, decisions); CallsEnd(env, u, w0) && u.end != Proceed
  {
    hide PausedDurably, Resume, Reject, Recover, Ready, StuckRollback, Undone, Stopped, RefusedEnd, InvertibleEntries,
      TruthfulCalls;
    if t.end == Paused {
      ServeEnd(env, t, w0, decisions);
      var u := Serve(env, t, decisions);
      assert u.end == Crashed ==> Recoverable(env, u.s, w0);
    }
  }

  lemma {:induction false} ServeCallsEnd<W(!new)>(env: Env<W>, t: Turn<W>, w0: W, calls: seq<Call>)
    requires CallsEnd(env, t, w0) && TruthfulCalls(env)
    requires forall i | 0 <= i < |calls| :: Invertibles(env, calls[i].steps)
    ensures CallsEnd(env, ServeCalls(env, t, calls), w0)
    decreases |calls|
  {
    hide Serve, ExecuteSteps, Ready, StuckRollback, Undone, Stopped, RefusedEnd, InvertibleEntries, PausedDurably,
      TruthfulCalls, Resolvable, Invertibles;
    if calls != [] && t.end in {Proceed, AllCommitted} {
      FirstPartEnd(env, t.s, w0, calls[0].steps);
      var first := ExecuteSaga(env, t.s, calls[0].steps);
      ServedCallEnd(env, first, w0, calls[0].decisions);
      ServeCallsEnd(env, Serve(env, first, calls[0].decisions), w0, calls[1..]);
    }
  }

  /**
   A saga of any number of calls. As long as they commit, the world is the fold of all their
   actions. A failure in any of them undoes the effects of all. One that cannot be undone stops the
   rollback right after the state it belongs to, every later step of whichever call being undone.
   */
  lemma EveryCallOfASaga<W(!new)>(
    env: Env<W>, s: Sys<W>, goal: string, tenantId: string, now: real, calls: seq<Call>)
    requires Fresh(s) && TruthfulCalls(env)
    requires forall i | 0 <= i < |calls| :: Invertibles(env, calls[i].steps)
    ensures var life := ServeCalls(env, Start(s, goal, tenantId, now), calls);
      && life.end in {Proceed, AllCommitted, Paused, Restored, RollbackFailed, Quarantined, Crashed}
      && (life.end in {Proceed, AllCommitted, Paused} ==>
            Replay(env, life.s.ledger.entries, |life.s.ledger.entries|, s.world) == Some(life.s.world)
            && forall i | 0 <= i < |life.s.ledger.entries| :: life.s.ledger.entries[i].state == EffectState.Committed)
      && (life.end == Restored ==> Undone(life.s, s.world) && life.s.ledger.status == Some(SagaStatus.RolledBack))
      && (life.end == RollbackFailed ==> StuckRollback(env, life.s, s.world))
      && (life.end == Quarantined ==> env.refusalRaises && RefusedEnd(env, life.s, s.world))
      && (life.end == Crashed ==> Stopped(env, life.s, s.world))
  {
    hide ExecuteSteps, Serve, Undone, StuckRollback, Stopped, RefusedEnd, InvertibleEntries, Invertibles,
      TruthfulCalls, ServeCalls, Resolvable, Recoverable, Ready;
    var t := Start(s, goal, tenantId, now);
    FreshIsReady(env, s, goal, tenantId, now);
    ServeCallsEnd(env, t, s.world, calls);
    var life := ServeCalls(env, t, calls);
    if life.end in {Proceed, AllCommitted, Paused} {
      ReadyIsFolded(env, life.s, s.world);
    }
  }

  lemma ReadyIsFolded<W(!new)>(env: Env<W>, s: Sys<W>, w0: W)
    requires Ready(env, s, w0)
    ensures Replay(env, s.ledger.entries, |s.ledger.entries|, w0) == Some(s.world)
    ensures forall i | 0 <= i < |s.ledger.entries| :: s.ledger.entries[i].state == EffectState.Committed
  {
  }

  /**
   A crash in any call of a saga: recovery restores the state before the first call when the
   durable status is live, and leaves everything as it is when it still says COMMITTED, from the
   call before.
   */
  lemma CrashInAnyCall<W(!new)>(
    env: Env<W>, s: Sys<W>, goal: string, tenantId: string, now: real, calls: seq<Call>, attempts: nat)
    requires Fresh(s) && Truthful(env)
    requires forall i | 0 <= i < |calls| :: Invertibles(env, calls[i].steps)
    ensures var life := ServeCalls(env, Start(s, goal, tenantId, now), calls);
      life.end == Crashed ==>
        if life.s.ledger.status == Some(SagaStatus.Committed)
        then Recover(env, life.s) == Turn(life.s.(saga := None), Proceed)
        else
          var recovery := RecoverRepeatedly(env, life.s, attempts);
          && recovery.end in {Crashed, Restored}
          && (recovery.end == Restored ==>
                Undone(recovery.s, s.world) && recovery.s.ledger.status == Some(SagaStatus.RolledBack))
  {
    hide ExecuteSteps, Serve, Undone, StuckRollback, Stopped, RefusedEnd, InvertibleEntries, Invertibles,
      TruthfulCalls, ReliableUndo, TruthfulResolver, ServeCalls, RecoverRepeatedly, RecoverEffects, Ready, Start;
    var t := Start(s, goal, tenantId, now);
    FreshIsReady(env, s, goal, tenantId, now);
    assert CallsEnd(env, t, s.world);
    ServeCallsEnd(env, t, s.world, calls);
    var life := ServeCalls(env, t, calls);
    if life.end == Crashed && life.s.ledger.status != Some(SagaStatus.Committed) {
      RepeatedRecoveryEnd(env, life.s, s.world, attempts);
    }
  }
}
