/**
 A forward call refused by an exception. The coordinator takes its outcome to be in doubt: it
 undoes the completed steps while the claimed record is still EXECUTING at the end of the
 journal, and quarantines that record afterwards.
 */
module Refusal {
  import opened Prelude
  import opened Sagas
  import opened Journal
  import opened Environment
  import opened CoordinatorSpec
  import opened Restoration
  import opened Rollback

  // ── A rollback reads and writes the records it names, and no other ─

  /** The states differ in the last record only, which is e in one and e' in the other. */
  ghost predicate Twins<W>(s: Sys<W>, s': Sys<W>, e: Entry, e': Entry) {
    && s' == s.(ledger := s.ledger.(entries := s'.ledger.entries))
    && e'.stepId == e.stepId
    && TwinJournals(s.ledger.entries, s'.ledger.entries, e, e')
  }

  ghost predicate TwinJournals(a: seq<Entry>, b: seq<Entry>, e: Entry, e': Entry) {
    a != [] && a[|a| - 1] == e && b == a[|a| - 1 := e']
  }

  ghost predicate TwinTurns<W>(t: Turn<W>, t': Turn<W>, e: Entry, e': Entry) {
    t.end == t'.end && Twins(t.s, t'.s, e, e')
  }

  lemma MoveTwins<W>(s: Sys<W>, s': Sys<W>, e: Entry, e': Entry, stepId: string, site: Site, error: string)
    requires Twins(s, s', e, e') && stepId != e.stepId
    ensures var i := IndexOf(s.ledger.entries, stepId);
      i == IndexOf(s'.ledger.entries, stepId)
      && (i < |s.ledger.entries| ==> s.ledger.entries[i] == s'.ledger.entries[i])
    ensures var moved, moved' := MoveAt(s.ledger, stepId, site, error), MoveAt(s'.ledger, stepId, site, error);
      && (moved.Some? <==> moved'.Some?)
      && (moved.Some? ==> Twins(s.(ledger := moved.value), s'.(ledger := moved'.value), e, e'))
  {
    IndexOfSameIds(s.ledger.entries, s'.ledger.entries, stepId);
    var i, n := IndexOf(s.ledger.entries, stepId), |s.ledger.entries| - 1;
    var moved, moved' := MoveAt(s.ledger, stepId, site, error), MoveAt(s'.ledger, stepId, site, error);
    if moved.Some? {
      assert i < n;
      assert TwinJournals(moved.value.entries, moved'.value.entries, e, e');
    }
  }

  lemma HandleTwins<W>(s: Sys<W>, s': Sys<W>, e: Entry, e': Entry, step: SagaStep)
    requires Twins(s, s', e, e') && step.stepId != e.stepId
    ensures TwinTurns(HandleCompensationFailure(s, step), HandleCompensationFailure(s', step), e, e')
  {
    hide MoveAt, IndexOf;
    var u := WithStatus(WithMemoryStatus(s, SagaStatus.CompensationFailed), SagaStatus.CompensationFailed);
    var u' := WithStatus(WithMemoryStatus(s', SagaStatus.CompensationFailed), SagaStatus.CompensationFailed);
    assert Twins(u, u', e, e');
    MoveTwins(u, u', e, e', step.stepId, FailCompensation, UNDO_FAILED);
  }

  lemma AnswerTwins<W>(env: Env<W>, s: Sys<W>, s': Sys<W>, e: Entry, e': Entry, stepId: string, compensation: ActionPayload)
    requires Twins(s, s', e, e')
    ensures Twins(Tick(s), Tick(s'), e, e') && CrashesHere(env, s) == CrashesHere(env, s')
    ensures var a, a' := ExecuteCompensation(env, s, stepId, compensation), ExecuteCompensation(env, s', stepId, compensation);
      a.reply == a'.reply && Twins(a.s, a'.s, e, e')
  {
    hide TwinJournals;
  }

  lemma CallTwins<W>(env: Env<W>, s: Sys<W>, s': Sys<W>, e: Entry, e': Entry, step: SagaStep)
    requires Twins(s, s', e, e') && step.stepId != e.stepId
    ensures TwinTurns(CompensationCall(env, s, step), CompensationCall(env, s', step), e, e')
  {
    hide MoveAt, IndexOf, ExecuteCompensation, HandleCompensationFailure, Twins, CrashesHere;
    var c := step.compensation;
    AnswerTwins(env, s, s', e, e', step.stepId, c);
    AnswerTwins(env, Tick(s), Tick(s'), e, e', step.stepId, c);
    var a, a' := ExecuteCompensation(env, Tick(s), step.stepId, c), ExecuteCompensation(env, Tick(s'), step.stepId, c);
    AnswerTwins(env, a.s, a'.s, e, e', step.stepId, c);
    HandleTwins(a.s, a'.s, e, e', step);
    HandleTwins(Tick(a.s), Tick(a'.s), e, e', step);
    MoveTwins(Tick(a.s), Tick(a'.s), e, e', step.stepId, RecordCompensated, "");
    var moved, moved' := MoveAt(a.s.ledger, step.stepId, RecordCompensated), MoveAt(a'.s.ledger, step.stepId, RecordCompensated);
    if moved.Some? {
      AnswerTwins(env, Tick(a.s).(ledger := moved.value), Tick(a'.s).(ledger := moved'.value), e, e', step.stepId, c);
    }
  }

  lemma CompensateStepTwins<W>(env: Env<W>, s: Sys<W>, s': Sys<W>, e: Entry, e': Entry, step: SagaStep)
    requires Twins(s, s', e, e') && step.stepId != e.stepId
    ensures TwinTurns(CompensateStep(env, s, step), CompensateStep(env, s', step), e, e')
  {
    hide MoveAt, IndexOf, CompensationCall, HandleCompensationFailure;
    HandleTwins(s, s', e, e', step);
    CallTwins(env, s, s', e, e', step);
    MoveTwins(s, s', e, e', step.stepId, BeginCompensation, "");
    var moved, moved' := MoveAt(s.ledger, step.stepId, BeginCompensation), MoveAt(s'.ledger, step.stepId, BeginCompensation);
    if moved.Some? {
      CallTwins(env, s.(ledger := moved.value), s'.(ledger := moved'.value), e, e', step);
    }
  }

  lemma {:induction false} RollbackTwins<W>(env: Env<W>, s: Sys<W>, s': Sys<W>, e: Entry, e': Entry, completed: seq<SagaStep>)
    requires Twins(s, s', e, e') && forall i | 0 <= i < |completed| :: completed[i].stepId != e.stepId
    ensures TwinTurns(CompensateAll(env, s, completed), CompensateAll(env, s', completed), e, e')
    decreases |completed|
  {
    hide CompensateStep, TwinJournals;
    if completed != [] {
      var step := completed[|completed| - 1];
      CompensateStepTwins(env, s, s', e, e', step);
      var t, t' := CompensateStep(env, s, step), CompensateStep(env, s', step);
      if t.end == Proceed {
        RollbackTwins(env, t.s, t'.s, e, e', completed[..|completed| - 1]);
      }
    } else {
      FinishTwins(s, s', e, e');
    }
  }

  lemma FinishTwins<W>(s: Sys<W>, s': Sys<W>, e: Entry, e': Entry)
    requires Twins(s, s', e, e')
    ensures Twins(WithStatus(WithMemoryStatus(s, SagaStatus.RolledBack), SagaStatus.RolledBack),
                  WithStatus(WithMemoryStatus(s', SagaStatus.RolledBack), SagaStatus.RolledBack), e, e')
  {
  }

  // ── The rollback after a refusal ──────────────────────────────────

  function Aborted(e: Entry): Entry {
    e.(state := EffectState.Aborted, error := "")
  }

  /** The state in which the last record had been aborted instead. */
  function Parked<W>(s: Sys<W>): Sys<W>
    requires s.ledger.entries != []
  {
    var n := |s.ledger.entries| - 1;
    s.(ledger := s.ledger.(entries := s.ledger.entries[n := Aborted(s.ledger.entries[n])]))
  }

  /**
   Inside the rollback that follows a refusal: the last record is EXECUTING, though its call had no
   effect, and but for it the journal has the usual shape.
   */
  ghost predicate Waiting<W>(env: Env<W>, s: Sys<W>, w0: W) {
    s.ledger.entries != [] &&
    var e := s.ledger.entries[|s.ledger.entries| - 1];
    && e.state == EffectState.Executing && !InForce(s, e.stepId) && !AlreadyCommitted(s.ledger, e.idempotencyKey)
    && Shaped(env, Parked(s), w0)
  }

  lemma WaitingCore<W>(env: Env<W>, s: Sys<W>, s': Sys<W>, w0: W)
    requires Waiting(env, s, w0) && SameCore(s, s')
    ensures Waiting(env, s', w0) && s.ledger.entries != []
  {
    hide Shape;
    var k: nat :| Shape(env, Parked(s), w0, k);
    ShapeCore(env, Parked(s), Parked(s'), w0, k);
  }

  /** Everything completed was undone, and the refused call, whose record is the last, had no effect. */
  ghost predicate UndoneBeforeLast<W>(s: Sys<W>, w0: W) {
    && s.world == w0
    && (forall i | 0 <= i < |s.ledger.entries| - 1 :: s.ledger.entries[i].state == EffectState.Compensated)
    && (forall id :: s.runs[id] == s.undos[id] <= 1)
  }

  /** How a refusal ends: its record in quarantine, operators told, and the completed steps rolled back. */
  ghost predicate RefusedEnd<W(!new)>(env: Env<W>, s: Sys<W>, w0: W) {
    var entries, letters := s.ledger.entries, s.ledger.deadLetters;
    && entries != []
    && var e := entries[|entries| - 1];
    && e.state == EffectState.Ambiguous && !InForce(s, e.stepId)
    && s.ledger.status == Some(SagaStatus.CompensationFailed)
    && letters != [] && letters[|letters| - 1] == DeadLetter(e.stepName, CALL_RAISED)
    && var n := |entries| - 1;
    (UndoneBeforeLast(s, w0) || (!ReliableUndo(env) && exists j :: LeftAt(env, s, w0, j, n)))
  }

  lemma ParkedShape<W(!new)>(env: Env<W>, s: Sys<W>, w0: W, k: nat)
    requires Shape(env, s, w0, k) && k == |s.ledger.entries| - 1
    requires s.ledger.entries[k].state == EffectState.Executing && !InForce(s, s.ledger.entries[k].stepId)
    requires InvertibleEntries(env, s.ledger.entries)
    ensures var e := s.ledger.entries[k];
      && Shape(env, Parked(s), w0, k) && !AlreadyCommitted(s.ledger, e.idempotencyKey)
      && Twins(s, Parked(s), e, Aborted(e))
      && InvertibleEntries(env, Parked(s).ledger.entries)
  {
    var e := s.ledger.entries[k];
    ShapeAfterMove(env, s, w0, k, EffectState.Aborted, "");
    var moved := s.(ledger := SetState(s.ledger, k, EffectState.Aborted, ""));
    assert moved.ledger.entries == Parked(s).ledger.entries;
    ShapeCore(env, moved, Parked(s), w0, k);
  }

  /** What the twin in which the record was aborted tells about the state itself. */
  lemma TwinIsParked<W>(s: Sys<W>, s': Sys<W>, e: Entry)
    requires Twins(s, s', e, Aborted(e))
    ensures s.ledger.entries != [] && s' == Parked(s)
  {
  }

  lemma OthersNamed<W>(env: Env<W>, s: Sys<W>, w0: W, k: nat, completed: seq<SagaStep>)
    requires Shape(env, s, w0, k) && k == |s.ledger.entries| - 1
    requires |completed| == k && Names(completed, s.ledger.entries)
    ensures forall i | 0 <= i < k :: completed[i].stepId != s.ledger.entries[k].stepId
  {
    forall i | 0 <= i < k
      ensures completed[i].stepId != s.ledger.entries[k].stepId
    {
      assert NamesEntry(completed[i], s.ledger.entries[i]);
    }
  }

  /** The journal and the world after the rollback, before the last record e is marked. */
  ghost predicate RolledBackWaiting<W(!new)>(env: Env<W>, s: Sys<W>, t: Turn<W>, e: Entry, w0: W) {
    var n := |t.s.ledger.entries| - 1;
    && t.end in {Crashed, Restored, RollbackFailed}
    && n >= 0 && t.s.ledger.entries[n] == e
    && !InForce(t.s, e.stepId)
    && DistinctIds(t.s.ledger.entries)
    && (t.end == Crashed ==>
          && Waiting(env, t.s, w0) && InvertibleEntries(env, t.s.ledger.entries)
          && t.s.ledger.metadata == s.ledger.metadata
          && t.s.ledger.status in {s.ledger.status, Some(SagaStatus.Compensating)})
    && (t.end == Restored ==> UndoneBeforeLast(t.s, w0))
    && (t.end == RollbackFailed ==> !ReliableUndo(env) && exists j :: LeftAt(env, t.s, w0, j, n))
  }

  /** From the twin whose last record was aborted to the state itself. */
  lemma FromTwin<W(!new)>(env: Env<W>, s: Sys<W>, t: Turn<W>, t': Turn<W>, e: Entry, w0: W)
    requires TwinTurns(t, t', e, Aborted(e)) && e.state == EffectState.Executing
    requires Quiet(s, t.s) && !InForce(s, e.stepId) && !AlreadyCommitted(s.ledger, e.idempotencyKey)
    requires DistinctIds(s.ledger.entries) && s.ledger.entries != []
    requires var n := |s.ledger.entries| - 1;
      && t'.end in {Restored, Crashed, RollbackFailed}
      && (t'.end == Crashed ==> Interrupted(env, s, t'.s, w0))
      && (t'.end == RollbackFailed ==> !ReliableUndo(env) && exists j :: StuckAt(env, t'.s, w0, j, n))
      && (t'.end == Restored ==> Undone(t'.s, w0) && n <= |t'.s.ledger.entries|
                                 && forall i | 0 <= i < n :: t'.s.ledger.entries[i].state == EffectState.Compensated)
    ensures RolledBackWaiting(env, s, t, e, w0)
  {
    hide Shaped, Invertible, ReliableUndo, Replay, AlreadyCommitted;
    var n := |s.ledger.entries| - 1;
    TwinIsParked(t.s, t'.s, e);
    assert |t.s.ledger.entries| == n + 1;
    assert forall i | 0 <= i < n :: t'.s.ledger.entries[i] == t.s.ledger.entries[i];
    assert InvertibleEntries(env, t'.s.ledger.entries) ==> InvertibleEntries(env, t.s.ledger.entries) by {
      assert t'.s.ledger.entries[n].action == t.s.ledger.entries[n].action;
    }
    assert t.s.runs == s.runs && s.undos[e.stepId] <= t.s.undos[e.stepId];
    assert AlreadyCommitted(t.s.ledger, e.idempotencyKey) == AlreadyCommitted(s.ledger, e.idempotencyKey) by {
      SamePublished(s.ledger, t.s.ledger, e.idempotencyKey);
    }
    QuietIds(s.ledger, t.s.ledger);
    if t.end == RollbackFailed {
      var j: nat :| StuckAt(env, t'.s, w0, j, n);
      ReplaySameActions(env, t'.s.ledger.entries, t.s.ledger.entries, j + 1, w0);
      assert LeftAt(env, t'.s, w0, j, n);
      assert t.s.world == t'.s.world;
      assert LeftAt(env, t.s, w0, j, n);
    }
  }

  lemma SamePublished(l: Ledger, l': Ledger, key: Option<string>)
    requires QuietLedger(l, l')
    ensures AlreadyCommitted(l', key) == AlreadyCommitted(l, key)
  {
  }

  lemma QuietIds(l: Ledger, l': Ledger)
    requires QuietLedger(l, l') && DistinctIds(l.entries)
    ensures DistinctIds(l'.entries)
  {
    assert forall i | 0 <= i < |l.entries| :: QuietEntry(l.entries[i], l'.entries[i]);
  }

  /** The rollback from a claimed record whose call had no effect. */
  lemma RollbackWaits<W(!new)>(env: Env<W>, s: Sys<W>, w0: W, k: nat)
    requires s.saga.Some? && Shape(env, s, w0, k) && k == |s.ledger.entries| - 1
    requires s.ledger.entries[k].state == EffectState.Executing && !InForce(s, s.ledger.entries[k].stepId)
    requires |s.saga.value.completedSteps| == k && Names(s.saga.value.completedSteps, s.ledger.entries)
    requires InvertibleEntries(env, s.ledger.entries) && CleanUndo(env)
    ensures RolledBackWaiting(env, s, Abandon(env, s), s.ledger.entries[k], w0)
  {
    hide Shape, StuckAt, CompensateAll, Undone, CleanUndo, ReliableUndo, Quiet, TwinJournals, RolledBackWaiting,
      InvertibleEntries, DistinctIds, AlreadyCommitted, InForce;
    var e, done := s.ledger.entries[k], s.saga.value.completedSteps;
    ParkedShape(env, s, w0, k);
    OthersNamed(env, s, w0, k, done);
    var p := Parked(s);
    var s1, p1 := WithStatus(s, SagaStatus.Compensating), WithStatus(p, SagaStatus.Compensating);
    ShapeCore(env, p, p1, w0, k);
    CompensateAllShape(env, p1, w0, done, k);
    RollbackTwins(env, s1, p1, e, Aborted(e), done);
    AbandonQuiet(env, s);
    assert DistinctIds(s.ledger.entries) by { ShapeIds(env, s, w0, k); }
    var t, t' := CompensateAll(env, s1, done), CompensateAll(env, p1, done);
    FromTwin(env, s, t, t', e, w0);
  }

  lemma ShapeIds<W>(env: Env<W>, s: Sys<W>, w0: W, k: nat)
    requires Shape(env, s, w0, k)
    ensures DistinctIds(s.ledger.entries)
  {
  }

  /**
   A refused call that raises: the completed steps are rolled back first, and then its record is
   put in quarantine, unless the process dies in between.
   */
  lemma RefusalShape<W(!new)>(env: Env<W>, s: Sys<W>, w0: W, k: nat, step: SagaStep)
    requires s.saga.Some? && Shape(env, s, w0, k) && k == |s.ledger.entries| - 1
    requires s.ledger.entries[k].state == EffectState.Executing && !InForce(s, s.ledger.entries[k].stepId)
    requires |s.saga.value.completedSteps| == k && Names(s.saga.value.completedSteps, s.ledger.entries)
    requires InvertibleEntries(env, s.ledger.entries) && CleanUndo(env)
    requires NamesEntry(step, s.ledger.entries[k])
    ensures var t := AbandonAmbiguous(env, s, step);
      && t.end in {Crashed, Quarantined}
      && (t.end == Crashed ==>
            && Waiting(env, t.s, w0) && InvertibleEntries(env, t.s.ledger.entries)
            && t.s.ledger.metadata == s.ledger.metadata
            && t.s.ledger.status in {s.ledger.status, Some(SagaStatus.Compensating)})
      && (t.end == Quarantined ==> RefusedEnd(env, t.s, w0))
  {
    hide Shape, Abandon, CleanUndo, ReliableUndo, InvertibleEntries, Waiting, Names, RefusedEnd, MoveAt;
    RollbackWaits(env, s, w0, k);
    var t := Abandon(env, s);
    if t.end != Crashed {
      MarkRefused(env, t.s, step, w0);
    }
  }

  lemma MarkRefused<W(!new)>(env: Env<W>, s: Sys<W>, step: SagaStep, w0: W)
    requires DistinctIds(s.ledger.entries) && s.ledger.entries != []
    requires var e := s.ledger.entries[|s.ledger.entries| - 1];
      NamesEntry(step, e) && e.state == EffectState.Executing && !InForce(s, e.stepId)
    requires var n := |s.ledger.entries| - 1;
      UndoneBeforeLast(s, w0) || (!ReliableUndo(env) && exists j :: LeftAt(env, s, w0, j, n))
    ensures var moved := MoveAt(s.ledger, step.stepId, RecordRaised, CALL_RAISED);
      RefusedEnd(env, s.(ledger := DeadLetterRecovery(moved.GetOr(s.ledger), step.stepName, CALL_RAISED)), w0)
  {
    hide ReliableUndo;
    var n := |s.ledger.entries| - 1;
    MoveAtIs(s.ledger, n, RecordRaised, CALL_RAISED);
    hide MoveAt;
    var moved := MoveAt(s.ledger, step.stepId, RecordRaised, CALL_RAISED).value;
    var s' := s.(ledger := DeadLetterRecovery(moved, step.stepName, CALL_RAISED));
    if !UndoneBeforeLast(s, w0) {
      var j: nat :| LeftAt(env, s, w0, j, n);
      ReplaySameActions(env, s.ledger.entries, s'.ledger.entries, j + 1, w0);
      assert LeftAt(env, s', w0, j, n);
    } else {
      assert UndoneBeforeLast(s', w0);
    }
  }
}
