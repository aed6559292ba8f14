/** Forward execution keeps the shape of the journal, and its rollbacks restore the world. */
module ForwardShape {
  import opened Prelude
  import opened Sagas
  import opened Journal
  import opened Environment
  import opened CoordinatorSpec
  import opened Restoration
  import opened Rollback
  import opened Refusal

  /** Between two steps: everything journaled is committed, in force, and named by the completed list. */
  ghost predicate Ready<W(!new)>(env: Env<W>, s: Sys<W>, w0: W) {
    && s.saga.Some?
    && Shape(env, s, w0, |s.ledger.entries|)
    && |s.saga.value.completedSteps| == |s.ledger.entries|
    && Names(s.saga.value.completedSteps, s.ledger.entries)
    && InvertibleEntries(env, s.ledger.entries)
  }

  /** During a step: as Ready, except for the last record, which belongs to the step. */
  ghost predicate Midway<W(!new)>(env: Env<W>, s: Sys<W>, w0: W, step: SagaStep) {
    var k := |s.ledger.entries| - 1;
    && s.saga.Some? && k >= 0
    && Shape(env, s, w0, k)
    && |s.saga.value.completedSteps| == k
    && Names(s.saga.value.completedSteps, s.ledger.entries)
    && InvertibleEntries(env, s.ledger.entries)
    && NamesEntry(step, s.ledger.entries[k])
  }

  function Last<T>(xs: seq<T>): T
    requires xs != []
  {
    xs[|xs| - 1]
  }

  /** The durable status and the metadata of s', a state that evolved from s without a return. */
  ghost predicate SameMeta<W>(s: Sys<W>, s': Sys<W>) {
    s'.ledger.metadata == s.ledger.metadata && s'.ledger.status == s.ledger.status
  }

  /** What a crash leaves: the usual shape, or the rollback that follows a refusal by exception. */
  ghost predicate Stopped<W>(env: Env<W>, s: Sys<W>, w0: W) {
    Shaped(env, s, w0) || (env.refusalRaises && Waiting(env, s, w0))
  }

  /** A crash in s', where an operation that began in s was under way; both call for recovery alike. */
  ghost predicate Survives<W(!new)>(env: Env<W>, s: Sys<W>, s': Sys<W>, w0: W) {
    && Stopped(env, s', w0)
    && InvertibleEntries(env, s'.ledger.entries)
    && s'.ledger.metadata == s.ledger.metadata
    && s'.ledger.status in {s.ledger.status, Some(SagaStatus.Compensating)}
  }

  /** A rollback of all completed steps stopped at the first it could not undo. */
  ghost predicate StuckRollback<W(!new)>(env: Env<W>, s: Sys<W>, w0: W) {
    var m := |Completed(s)|;
    !ReliableUndo(env) && exists j :: StuckAt(env, s, w0, j, m)
  }

  /** The ways an operation of a truthful run can end, and what each guarantees. */
  ghost predicate GoodEnd<W(!new)>(env: Env<W>, s: Sys<W>, t: Turn<W>, w0: W) {
    match t.end
    case Crashed => Survives(env, s, t.s, w0)
    case Restored => Undone(t.s, w0) && t.s.ledger.status == Some(SagaStatus.RolledBack)
    case RollbackFailed => StuckRollback(env, t.s, w0)
    case Quarantined => env.refusalRaises && RefusedEnd(env, t.s, w0)
    case AllCommitted => Ready(env, t.s, w0) && t.s.ledger.status == Some(SagaStatus.Committed)
    case Paused => Ready(env, t.s, w0) && t.s.saga.value.status == SagaStatus.AwaitingApproval
                   && t.s.saga.value.pendingSteps != []
    case _ => false
  }

  ghost predicate TruthfulCalls<W(!new)>(env: Env<W>) {
    HonestCalls(env) && CleanUndo(env)
  }

  // ── The primitives ────────────────────────────────────────────────

  lemma AbandonShape<W(!new)>(env: Env<W>, s: Sys<W>, w0: W, k: nat)
    requires s.saga.Some? && Shape(env, s, w0, k) && CleanUndo(env)
    requires |s.saga.value.completedSteps| == k && Names(s.saga.value.completedSteps, s.ledger.entries)
    requires k < |s.ledger.entries| ==> Settled(s.ledger.entries[k].state)
    requires InvertibleEntries(env, s.ledger.entries)
    ensures var t := Abandon(env, s);
      GoodEnd(env, s, t, w0) && t.end in {Crashed, Restored, RollbackFailed}
  {
    hide Shape, StuckAt, CompensateAll, Undone, InvertibleEntries, Names, CleanUndo, ReliableUndo, Shaped, QuietLedger;
    var s' := WithStatus(s, SagaStatus.Compensating);
    ShapeCore(env, s, s', w0, k);
    CompensateAllShape(env, s', w0, s.saga.value.completedSteps, k);
    AbandonQuiet(env, s);
  }

  /** A new record has not run, and leaves the shape as it is. */
  lemma ShapeAppend<W(!new)>(env: Env<W>, s: Sys<W>, w0: W, e: Entry)
    requires Shape(env, s, w0, |s.ledger.entries|)
    requires e.state == EffectState.Prepared
    requires forall i | 0 <= i < |s.ledger.entries| :: s.ledger.entries[i].stepId != e.stepId
    ensures Shape(env, s.(ledger := s.ledger.(entries := s.ledger.entries + [e])), w0, |s.ledger.entries|)
    ensures s.runs[e.stepId] == 0
  {
    var n, a, b := |s.ledger.entries|, s.ledger.entries, s.ledger.entries + [e];
    var s' := s.(ledger := s.ledger.(entries := b));
    NotJournaledNotRun(s, e.stepId);
    assert Live(s', n) == n == Live(s, n);
    ReplaySameActions(env, a, b, n, w0);
    hide Replay;
    JournaledAppend(s, e);
    assert DistinctIds(b);
    assert forall i | 0 <= i < n :: b[i] == a[i];
    assert InFlight(s', b[n]);
  }

  lemma NotJournaledNotRun<W>(s: Sys<W>, stepId: string)
    requires OnlyJournaled(s) && AtMostOnce(s)
    requires forall i | 0 <= i < |s.ledger.entries| :: s.ledger.entries[i].stepId != stepId
    ensures s.runs[stepId] == 0 && !InForce(s, stepId)
  {
    assert !Journaled(s.ledger.entries, stepId);
  }

  lemma JournaledAppend<W>(s: Sys<W>, e: Entry)
    requires OnlyJournaled(s)
    ensures OnlyJournaled(s.(ledger := s.ledger.(entries := s.ledger.entries + [e])))
  {
    forall id | s.runs[id] > 0
      ensures Journaled(s.ledger.entries + [e], id)
    {
      var j :| 0 <= j < |s.ledger.entries| && s.ledger.entries[j].stepId == id;
      assert (s.ledger.entries + [e])[j].stepId == id;
    }
  }

  /** Write-ahead registration of a new step. */
  lemma PrepareShape<W(!new)>(env: Env<W>, s: Sys<W>, w0: W, step: SagaStep)
    requires Ready(env, s, w0) && IndexOf(s.ledger.entries, step.stepId) == |s.ledger.entries|
    requires Invertible(env, step.action, step.compensation)
    ensures PrepareEffect(s.ledger, step).Some?
    ensures var l := PrepareEffect(s.ledger, step).value;
      && Midway(env, s.(ledger := l), w0, step)
      && Last(l.entries) == NewEntry(step)
      && l.published == s.ledger.published && SameMeta(s, s.(ledger := l))
      && s.runs[step.stepId] == 0
  {
    hide Shape, Invertible;
    ShapeAppend(env, s, w0, NewEntry(step));
  }

  /** A repeated identity can only be that of a committed step, which cannot be claimed again. */
  lemma RepeatedStep<W(!new)>(env: Env<W>, s: Sys<W>, w0: W, step: SagaStep)
    requires Ready(env, s, w0) && IndexOf(s.ledger.entries, step.stepId) < |s.ledger.entries|
    ensures var prepared := PrepareEffect(s.ledger, step);
      prepared.None? || (prepared == Some(s.ledger) && MoveAt(s.ledger, step.stepId, Claim).None?)
  {
    hide Shape, InvertibleEntries, Names;
    CommittedBefore(env, s, w0, |s.ledger.entries|);
  }

  lemma MidwayMove<W(!new)>(env: Env<W>, s: Sys<W>, w0: W, step: SagaStep, site: Site, error: string)
    requires Midway(env, s, w0, step)
    requires Last(s.ledger.entries).state in Expected(site)
    requires InFlight(s, Last(s.ledger.entries).(state := Target(site)))
    ensures var moved := MoveAt(s.ledger, step.stepId, site, error);
      && moved.Some?
      && Midway(env, s.(ledger := moved.value), w0, step)
      && Last(moved.value.entries).state == Target(site)
      && SameMeta(s, s.(ledger := moved.value)) && moved.value.published == s.ledger.published
  {
    hide Shape;
    RecordMove(env, s, w0, |s.ledger.entries| - 1, site, error);
  }

  lemma MidwayCore<W(!new)>(env: Env<W>, s: Sys<W>, s': Sys<W>, w0: W, step: SagaStep)
    requires Midway(env, s, w0, step) && SameCore(s, s') && s'.saga == s.saga
    ensures Midway(env, s', w0, step)
  {
    hide Shape;
    ShapeCore(env, s, s', w0, |s.ledger.entries| - 1);
  }

  lemma ReadyCore<W(!new)>(env: Env<W>, s: Sys<W>, s': Sys<W>, w0: W)
    requires Ready(env, s, w0) && SameCore(s, s') && s'.saga.Some?
    requires s'.saga.value.completedSteps == s.saga.value.completedSteps
    ensures Ready(env, s', w0)
  {
    hide Shape;
    ShapeCore(env, s, s', w0, |s.ledger.entries|);
  }

  lemma ShapeAfterCall<W(!new)>(env: Env<W>, s: Sys<W>, w0: W, k: nat, w: W)
    requires Shape(env, s, w0, k) && k < |s.ledger.entries|
    requires s.ledger.entries[k].state == EffectState.Executing && s.runs[s.ledger.entries[k].stepId] == 0
    requires env.act(s.ledger.entries[k].action, s.world) == Some(w)
    ensures var id := s.ledger.entries[k].stepId;
      var s' := s.(world := w, runs := s.runs + multiset{id});
      Shape(env, s', w0, k) && InForce(s', id)
  {
    var id := s.ledger.entries[k].stepId;
    var s' := s.(world := w, runs := s.runs + multiset{id});
    assert s.undos[id] <= s.runs[id];
    assert forall other | other != id :: s'.runs[other] == s.runs[other];
    assert s'.runs[id] == 1;
    assert Live(s', k) == k + 1;
  }

  /** The forward call of a claimed step that never ran before. */
  lemma CallShape<W(!new)>(env: Env<W>, s: Sys<W>, w0: W, step: SagaStep)
    requires Midway(env, s, w0, step) && HonestCalls(env)
    requires Last(s.ledger.entries).state == EffectState.Executing && s.runs[step.stepId] == 0
    ensures var a := Execute(env, s, step.stepId, step.action);
      && a.s.ledger == s.ledger && a.s.saga == s.saga
      && (a.reply == Raised ==> env.refusalRaises)
      && (a.reply == Succeeded ==> Midway(env, a.s, w0, step) && InForce(a.s, step.stepId))
      && (a.reply != Succeeded ==> a.s == Tick(s) && !InForce(s, step.stepId))
  {
    hide Shape, InvertibleEntries, Names;
    var k := |s.ledger.entries| - 1;
    assert env.choice(s.clock).call == Succeed || env.choice(s.clock).call == Fail(false);
    ShapeCore(env, s, Tick(s), w0, k);
    if env.act(step.action, s.world).Some? {
      ShapeAfterCall(env, Tick(s), w0, k, env.act(step.action, s.world).value);
    }
  }

  lemma CommitShape<W(!new)>(env: Env<W>, s: Sys<W>, w0: W, step: SagaStep)
    requires Midway(env, s, w0, step) && Last(s.ledger.entries).state == EffectState.Applied
    ensures var s1 := AppendCompleted(s, step);
      var committed := CommitEffect(s1.ledger, step.stepId, step.idempotencyKey);
      committed.Some? && Ready(env, s1.(ledger := committed.value), w0) && SameMeta(s, s1.(ledger := committed.value))
  {
    var k := |s.ledger.entries| - 1;
    IndexOfUnique(s.ledger.entries, k);
    var s1 := AppendCompleted(s, step);
    var e := s.ledger.entries[k];
    ShapeAfterMove(env, s, w0, k, EffectState.Committed, e.error);
    var s2 := s.(ledger := SetState(s.ledger, k, EffectState.Committed, e.error));
    ShapeStepForward(env, s2, w0, k);
    var s3 := s1.(ledger := CommitEffect(s1.ledger, step.stepId, step.idempotencyKey).value);
    assert s3.ledger.entries == s2.ledger.entries;
    PublishShape(env, s2, s3, w0);
  }

  /** With nothing in flight, publishing a key does not matter to the shape. */
  lemma PublishShape<W(!new)>(env: Env<W>, s: Sys<W>, s': Sys<W>, w0: W)
    requires Shape(env, s, w0, |s.ledger.entries|)
    requires s'.ledger.entries == s.ledger.entries && s'.world == s.world && s'.runs == s.runs && s'.undos == s.undos
    ensures Shape(env, s', w0, |s'.ledger.entries|)
  {
  }

  // ── The step, from its end to its beginning ───────────────────────

  lemma RecordStepShape<W(!new)>(env: Env<W>, s: Sys<W>, w0: W, step: SagaStep)
    requires Midway(env, s, w0, step)
    requires Last(s.ledger.entries).state == EffectState.Executing && InForce(s, step.stepId)
    ensures var t := RecordStep(env, s, step);
      && t.end in {Proceed, Crashed}
      && (t.end == Crashed ==> Survives(env, s, t.s, w0))
      && (t.end == Proceed ==> Ready(env, t.s, w0) && SameMeta(s, t.s))
  {
    hide Shape, MoveAt, CommitEffect, InForce, InvertibleEntries, Names, AbandonAmbiguous, Abandon, AppendCompleted, Ready;
    MidwayMove(env, s, w0, step, RecordApplied, "");
    var s1 := s.(ledger := MoveAt(s.ledger, step.stepId, RecordApplied).value);
    MidwayCore(env, s1, Tick(s1), w0, step);
    if CrashesHere(env, s1) {
      MidwayIsShaped(env, Tick(s1), w0, step);
    } else {
      CommitShape(env, Tick(s1), w0, step);
      var s2 := AppendCompleted(Tick(s1), step);
      assert s2.ledger == s1.ledger && s2.saga.Some? by { AppendKeepsLedger(Tick(s1), step); }
      var s3 := s2.(ledger := CommitEffect(s2.ledger, step.stepId, step.idempotencyKey).value);
      ReadyCore(env, s3, Tick(s3), w0);
      ReadyIsShaped(env, Tick(s3), w0);
    }
  }

  lemma AppendKeepsLedger<W>(s: Sys<W>, step: SagaStep)
    requires s.saga.Some?
    ensures AppendCompleted(s, step).ledger == s.ledger && AppendCompleted(s, step).saga.Some?
  {
  }

  lemma MidwayIsShaped<W(!new)>(env: Env<W>, s: Sys<W>, w0: W, step: SagaStep)
    requires Midway(env, s, w0, step)
    ensures s.saga.Some? && Shaped(env, s, w0) && InvertibleEntries(env, s.ledger.entries)
  {
    hide Shape;
  }

  lemma ReadyIsShaped<W(!new)>(env: Env<W>, s: Sys<W>, w0: W)
    requires Ready(env, s, w0)
    ensures s.saga.Some? && Shaped(env, s, w0) && InvertibleEntries(env, s.ledger.entries)
  {
    hide Shape;
  }

  /** A good end of what follows s1 is a good end of what follows s. */
  lemma GoodEndFrom<W(!new)>(env: Env<W>, s: Sys<W>, s1: Sys<W>, t: Turn<W>, w0: W)
    requires SameMeta(s, s1) && GoodEnd(env, s1, t, w0)
    ensures GoodEnd(env, s, t, w0)
  {
    hide Shaped, StuckAt, Undone, Ready, InvertibleEntries;
  }

  /** The step was refused after its record had been aborted. */
  lemma RejectShape<W(!new)>(env: Env<W>, s: Sys<W>, w0: W, step: SagaStep)
    requires Midway(env, s, w0, step) && CleanUndo(env)
    requires Last(s.ledger.entries).state == EffectState.Executing && !InForce(s, step.stepId)
    ensures var moved := MoveAt(s.ledger, step.stepId, RejectCall, CALL_FAILED);
      && moved.Some?
      && var t := Abandon(env, Tick(s).(ledger := moved.value));
         GoodEnd(env, s, t, w0) && t.end in {Crashed, Restored, RollbackFailed}
  {
    hide Shape, Abandon, StuckAt, Undone, InvertibleEntries, CleanUndo, GoodEnd, MoveAt, Names;
    MidwayCore(env, s, Tick(s), w0, step);
    MidwayMove(env, Tick(s), w0, step, RejectCall, CALL_FAILED);
    var s' := Tick(s).(ledger := MoveAt(s.ledger, step.stepId, RejectCall, CALL_FAILED).value);
    AbandonShape(env, s', w0, |s'.ledger.entries| - 1);
    GoodEndFrom(env, s, s', Abandon(env, s'), w0);
  }

  /** The step was refused by an exception. */
  lemma RaisedShape<W(!new)>(env: Env<W>, s: Sys<W>, w0: W, step: SagaStep, a: Answer<W>)
    requires Midway(env, s, w0, step) && CleanUndo(env) && env.refusalRaises
    requires Last(s.ledger.entries).state == EffectState.Executing && !InForce(s, step.stepId) && a.s == Tick(s)
    ensures var t := AbandonAmbiguous(env, a.s, step);
      GoodEnd(env, a.s, t, w0) && t.end in {Crashed, Quarantined}
  {
    hide Shape, AbandonAmbiguous, Waiting, RefusedEnd, InvertibleEntries, CleanUndo, Names, Shaped, InForce;
    MidwayCore(env, s, a.s, w0, step);
    ForceCore(s, a.s, step.stepId);
    RefusalShape(env, a.s, w0, |s.ledger.entries| - 1, step);
  }

  lemma CallStepShape<W(!new)>(env: Env<W>, s: Sys<W>, w0: W, step: SagaStep)
    requires Midway(env, s, w0, step) && TruthfulCalls(env)
    requires Last(s.ledger.entries).state == EffectState.Executing && s.runs[step.stepId] == 0
    ensures var t := CallStep(env, s, step);
      && t.end in {Proceed, Crashed, Restored, RollbackFailed, Quarantined}
      && (t.end == Proceed ==> Ready(env, t.s, w0) && SameMeta(s, t.s))
      && (t.end != Proceed ==> GoodEnd(env, s, t, w0))
  {
    hide Midway, StuckAt, Undone, Ready, Shaped, InvertibleEntries, CleanUndo, HonestCalls,
      Execute, RecordStep, Abandon, AbandonAmbiguous, MoveAt, InForce;
    MidwayCore(env, s, Tick(s), w0, step);
    MidwayIsShaped(env, Tick(s), w0, step);
    if !CrashesHere(env, s) {
      CallShape(env, Tick(s), w0, step);
      var a := Execute(env, Tick(s), step.stepId, step.action);
      MidwayAnswer(env, s, w0, step, a);
      MidwayCore(env, a.s, Tick(a.s), w0, step);
      if a.reply == Raised {
        RaisedShape(env, Tick(s), w0, step, a);
        GoodEndFrom(env, s, a.s, CallStep(env, s, step), w0);
      } else if CrashesHere(env, a.s) {
        MidwayIsShaped(env, Tick(a.s), w0, step);
      } else if a.reply == Refused {
        ForceCore(a.s, Tick(s), step.stepId);
        RejectShape(env, a.s, w0, step);
        GoodEndFrom(env, s, a.s, CallStep(env, s, step), w0);
      } else {
        ForceCore(Tick(a.s), a.s, step.stepId);
        RecordStepShape(env, Tick(a.s), w0, step);
        assert CallStep(env, s, step) == RecordStep(env, Tick(a.s), step);
      }
    }
  }

  lemma ForceCore<W>(s: Sys<W>, s': Sys<W>, stepId: string)
    requires s.runs == s'.runs && s.undos == s'.undos
    ensures InForce(s, stepId) == InForce(s', stepId)
  {
  }

  lemma MidwayAnswer<W(!new)>(env: Env<W>, s: Sys<W>, w0: W, step: SagaStep, a: Answer<W>)
    requires Midway(env, s, w0, step)
    requires a.reply != Succeeded ==> a.s == Tick(Tick(s))
    requires a.reply == Succeeded ==> Midway(env, a.s, w0, step)
    ensures Midway(env, a.s, w0, step) && s.ledger.entries != []
  {
    hide Shape;
    MidwayCore(env, s, Tick(Tick(s)), w0, step);
  }

  lemma PrepareStepShape<W(!new)>(env: Env<W>, s: Sys<W>, w0: W, step: SagaStep)
    requires Ready(env, s, w0) && TruthfulCalls(env) && Invertible(env, step.action, step.compensation)
    requires !AlreadyCommitted(s.ledger, step.idempotencyKey)
    ensures var t := PrepareStep(env, s, step);
      && t.end in {Proceed, Crashed, Restored, RollbackFailed, Quarantined}
      && (t.end == Proceed ==> Ready(env, t.s, w0) && SameMeta(s, t.s))
      && (t.end != Proceed ==> GoodEnd(env, s, t, w0))
  {
    hide Midway, StuckAt, Undone, Ready, Shaped, InvertibleEntries, CleanUndo, HonestCalls, GoodEnd,
      CallStep, Abandon, MoveAt, PrepareEffect, Invertible;
    assert s.saga.Some? by { ReadyIsShaped(env, s, w0); }
    if IndexOf(s.ledger.entries, step.stepId) < |s.ledger.entries| {
      RepeatedStep(env, s, w0, step);
      ReadyAbandon(env, s, s, w0);
      ReadyAbandon(env, s, Tick(s), w0);
      ReadyCrash(env, s, Tick(s), w0);
    } else {
      PrepareShape(env, s, w0, step);
      var s1 := s.(ledger := PrepareEffect(s.ledger, step).value);
      MidwayCore(env, s1, Tick(s1), w0, step);
      if CrashesHere(env, s1) {
        MidwayCrash(env, s, Tick(s1), w0, step);
      } else {
        MidwayMove(env, Tick(s1), w0, step, Claim, "");
        var s2 := Tick(s1).(ledger := MoveAt(s1.ledger, step.stepId, Claim).value);
        CallStepShape(env, s2, w0, step);
        if CallStep(env, s2, step).end != Proceed {
          GoodEndFrom(env, s, s2, CallStep(env, s2, step), w0);
        }
        assert PrepareStep(env, s, step) == CallStep(env, s2, step);
      }
    }
  }

  lemma MidwayCrash<W(!new)>(env: Env<W>, s: Sys<W>, s': Sys<W>, w0: W, step: SagaStep)
    requires Midway(env, s', w0, step) && SameMeta(s, s')
    ensures GoodEnd(env, s, Turn(s', Crashed), w0)
  {
    hide Shape;
    MidwayIsShaped(env, s', w0, step);
  }

  lemma ReadyCrash<W(!new)>(env: Env<W>, s: Sys<W>, s': Sys<W>, w0: W)
    requires Ready(env, s, w0) && SameCore(s, s') && SameMeta(s, s') && s'.saga == s.saga
    ensures GoodEnd(env, s, Turn(s', Crashed), w0)
  {
    hide Shape;
    ReadyCore(env, s, s', w0);
    ReadyIsShaped(env, s', w0);
  }

  /** A failure between steps undoes them all. */
  lemma ReadyAbandon<W(!new)>(env: Env<W>, s: Sys<W>, s': Sys<W>, w0: W)
    requires Ready(env, s, w0) && CleanUndo(env)
    requires SameCore(s, s') && SameMeta(s, s') && s'.saga == s.saga
    ensures var t := Abandon(env, s');
      GoodEnd(env, s, t, w0) && t.end in {Crashed, Restored, RollbackFailed}
  {
    hide Shape, StuckAt, Undone, InvertibleEntries, Names, CleanUndo, Abandon, GoodEnd;
    ReadyCore(env, s, s', w0);
    AbandonShape(env, s', w0, |s'.ledger.entries|);
    GoodEndFrom(env, s, s', Abandon(env, s'), w0);
  }

  lemma PauseShape<W(!new)>(env: Env<W>, s: Sys<W>, w0: W, steps: seq<SagaStep>)
    requires Ready(env, s, w0) && steps != []
    ensures GoodEnd(env, s, Pause(s, steps), w0) && Pause(s, steps).end == Paused
    ensures Invertibles(env, steps) ==> Invertibles(env, Pause(s, steps).s.saga.value.pendingSteps)
  {
    hide Shape, InvertibleEntries, Names;
    ReadyCore(env, s, Pause(s, steps).s, w0);
  }

  lemma AttemptStepShape<W(!new)>(env: Env<W>, s: Sys<W>, w0: W, steps: seq<SagaStep>)
    requires Ready(env, s, w0) && TruthfulCalls(env) && steps != [] && Invertibles(env, steps)
    requires !AlreadyCommitted(s.ledger, steps[0].idempotencyKey)
    ensures var t := AttemptStep(env, s, steps);
      && t.end in {Proceed, Crashed, Restored, RollbackFailed, Quarantined, Paused}
      && (t.end == Proceed ==> Ready(env, t.s, w0) && SameMeta(s, t.s))
      && (t.end != Proceed ==> GoodEnd(env, s, t, w0))
      && (t.end == Paused ==> Invertibles(env, t.s.saga.value.pendingSteps))
  {
    assert Invertible(env, steps[0].action, steps[0].compensation);
    hide Ready, StuckAt, Undone, Shaped, InvertibleEntries, CleanUndo, HonestCalls, GoodEnd,
      Pause, PrepareStep, Abandon, Invertible;
    var s' := Tick(s);
    assert Ready(env, s', w0) && s.saga.Some? by { ReadyIsShaped(env, s, w0); ReadyTick(env, s, w0); }
    var c := env.choice(s.clock);
    if c.gate != Admit || !c.preflight {
      ReadyAbandon(env, s, s', w0);
    } else if steps[0].requiresApproval && !steps[0].approved {
      PauseShape(env, s', w0, steps);
      GoodEndFrom(env, s, s', Pause(s', steps), w0);
    } else {
      PrepareStepShape(env, s', w0, steps[0]);
      if PrepareStep(env, s', steps[0]).end != Proceed {
        GoodEndFrom(env, s, s', PrepareStep(env, s', steps[0]), w0);
      }
    }
  }

  lemma ReadyTick<W(!new)>(env: Env<W>, s: Sys<W>, w0: W)
    requires Ready(env, s, w0)
    ensures Ready(env, Tick(s), w0)
  {
    hide Shape;
    ReadyCore(env, s, Tick(s), w0);
  }

  /** Every way a step list can end in a truthful environment. */
  lemma {:induction false} ExecuteStepsShape<W(!new)>(env: Env<W>, s: Sys<W>, w0: W, steps: seq<SagaStep>)
    requires Ready(env, s, w0) && TruthfulCalls(env) && Invertibles(env, steps)
    ensures var t := ExecuteSteps(env, s, steps);
      && GoodEnd(env, s, t, w0)
      && (t.end == Paused ==> Invertibles(env, t.s.saga.value.pendingSteps))
    decreases |steps|
  {
    hide Ready, StuckAt, Undone, Shaped, InvertibleEntries, CleanUndo, HonestCalls, AttemptStep, Invertible;
    assert s.saga.Some? by { ReadyIsShaped(env, s, w0); }
    if steps == [] {
      FinishShape(env, s, w0);
    } else if AlreadyCommitted(s.ledger, steps[0].idempotencyKey) {
      ExecuteStepsShape(env, s, w0, steps[1..]);
    } else {
      AttemptStepShape(env, s, w0, steps);
      var t := AttemptStep(env, s, steps);
      if t.end == Proceed {
        ExecuteStepsShape(env, t.s, w0, steps[1..]);
        GoodEndFrom(env, s, t.s, ExecuteSteps(env, t.s, steps[1..]), w0);
      }
    }
  }

  lemma FinishShape<W(!new)>(env: Env<W>, s: Sys<W>, w0: W)
    requires Ready(env, s, w0)
    ensures GoodEnd(env, s, ExecuteSteps(env, s, []), w0) && ExecuteSteps(env, s, []).end == AllCommitted
  {
    hide Shape;
    ReadyCore(env, s, ExecuteSteps(env, s, []).s, w0);
  }
}
