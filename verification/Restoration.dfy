/**
 Crash anywhere, then restored. The invariant of this module holds at every checkpoint of a
 saga whose calls report what they did; it says what the journal looks like there and which
 world goes with it. Rollback and recovery are then shown to lead back to the initial world.
 */
module Restoration {
  import opened Prelude
  import opened Sagas
  import opened Journal
  import opened Environment
  import opened CoordinatorSpec

  // ── The world a journal stands for ────────────────────────────────

  /** The world reached from w0 by the actions of the first m records, None when one is refused. */
  function Replay<W>(env: Env<W>, entries: seq<Entry>, m: nat, w0: W): Option<W>
    requires m <= |entries|
  {
    if m == 0 then Some(w0) else
    var w := Replay(env, entries, m - 1, w0);
    if w.Some? then env.act(entries[m - 1].action, w.value) else None
  }

  lemma {:induction false} ReplaySameActions<W>(env: Env<W>, a: seq<Entry>, b: seq<Entry>, m: nat, w0: W)
    requires m <= |a| && m <= |b|
    requires forall i | 0 <= i < m :: a[i].action == b[i].action
    ensures Replay(env, a, m, w0) == Replay(env, b, m, w0)
  {
    if m > 0 {
      ReplaySameActions(env, a, b, m - 1, w0);
    }
  }

  // ── The invariant ─────────────────────────────────────────────────

  /** What the state of the one record in flight says about its effect. */
  ghost predicate InFlight<W>(s: Sys<W>, e: Entry) {
    match e.state
    case Prepared => s.runs[e.stepId] == 0
    case Executing => !AlreadyCommitted(s.ledger, e.idempotencyKey)
    case Applied | Committed => InForce(s, e.stepId)
    case Compensating => s.runs[e.stepId] == 1
    case Aborted | Compensated => !InForce(s, e.stepId)
    case Ambiguous | CompensationFailed => false
  }

  /** No effect takes place twice, none is undone twice or undone without having taken place. */
  ghost predicate AtMostOnce<W>(s: Sys<W>) {
    forall id :: s.undos[id] <= s.runs[id] <= 1
  }

  ghost predicate Journaled(entries: seq<Entry>, stepId: string) {
    exists i :: 0 <= i < |entries| && entries[i].stepId == stepId
  }

  ghost predicate OnlyJournaled<W>(s: Sys<W>) {
    forall id | s.runs[id] > 0 :: Journaled(s.ledger.entries, id)
  }

  /** The number of leading records whose effects are in force. */
  ghost function Live<W>(s: Sys<W>, k: nat): nat {
    if k < |s.ledger.entries| && InForce(s, s.ledger.entries[k].stepId) then k + 1 else k
  }

  /**
   The shape of the journal around position k: COMMITTED records before it, at most one record
   in flight at it, settled records after it; and the world is the fold of the actions whose
   effects are in force, which are those before k and possibly the one at k.
   */
  ghost predicate Shape<W>(env: Env<W>, s: Sys<W>, w0: W, k: nat) {
    var entries := s.ledger.entries;
    && k <= |entries|
    && DistinctIds(entries)
    && AtMostOnce(s)
    && OnlyJournaled(s)
    && (forall i | 0 <= i < k :: entries[i].state == EffectState.Committed && InForce(s, entries[i].stepId))
    && (k < |entries| ==> InFlight(s, entries[k]))
    && (forall i | k < i < |entries| :: Settled(entries[i].state) && !InForce(s, entries[i].stepId))
    && Replay(env, entries, Live(s, k), w0) == Some(s.world)
  }

  ghost predicate Shaped<W>(env: Env<W>, s: Sys<W>, w0: W) {
    exists k: nat :: Shape(env, s, w0, k)
  }

  ghost predicate InvertibleEntries<W(!new)>(env: Env<W>, entries: seq<Entry>) {
    forall i | 0 <= i < |entries| :: Invertible(env, entries[i].action, entries[i].compensation)
  }

  /** The in-memory list of completed steps names the first records of the journal. */
  ghost predicate Names(completed: seq<SagaStep>, entries: seq<Entry>) {
    |completed| <= |entries| && forall i | 0 <= i < |completed| :: NamesEntry(completed[i], entries[i])
  }

  /** Everything was undone: no effect is left in force and the world is the initial one. */
  ghost predicate Undone<W>(s: Sys<W>, w0: W) {
    && AllSettled(s.ledger.entries)
    && s.world == w0
    && forall id :: s.runs[id] == s.undos[id] <= 1
  }

  // ── Moving the invariant ──────────────────────────────────────────

  /** The two states differ in bookkeeping only: clock, statuses, metadata, dead letters, history, memory. */
  ghost predicate SameCore<W>(s: Sys<W>, s': Sys<W>) {
    && s.ledger.entries == s'.ledger.entries && s.ledger.published == s'.ledger.published
    && s.world == s'.world && s.runs == s'.runs && s.undos == s'.undos
  }

  lemma ShapeCore<W>(env: Env<W>, s: Sys<W>, s': Sys<W>, w0: W, k: nat)
    requires Shape(env, s, w0, k) && SameCore(s, s')
    ensures Shape(env, s', w0, k)
  {
  }

  /** Only the record in flight changed its state, and its new state is truthful. */
  lemma ShapeAfterMove<W>(env: Env<W>, s: Sys<W>, w0: W, k: nat, to: EffectState, error: string)
    requires Shape(env, s, w0, k) && k < |s.ledger.entries|
    requires InFlight(s, s.ledger.entries[k].(state := to))
    ensures Shape(env, s.(ledger := SetState(s.ledger, k, to, error)), w0, k)
  {
    hide InFlight, OnlyJournaled, DistinctIds, Settled, SetState, InForce, AtMostOnce, Replay;
    var s' := s.(ledger := SetState(s.ledger, k, to, error));
    var a, b := s.ledger.entries, s'.ledger.entries;
    MoveKeepsRecords(s, k, to, error);
    assert Live(s', k) == Live(s, k);
    ReplaySameActions(env, a, b, Live(s, k), w0);
  }

  lemma MoveKeepsRecords<W>(s: Sys<W>, k: nat, to: EffectState, error: string)
    requires k < |s.ledger.entries|
    ensures var s' := s.(ledger := SetState(s.ledger, k, to, error));
      var a, b := s.ledger.entries, s'.ledger.entries;
      && b == a[k := a[k].(state := to, error := error)]
      && (DistinctIds(a) ==> DistinctIds(b))
      && (OnlyJournaled(s) ==> OnlyJournaled(s'))
      && (AtMostOnce(s) ==> AtMostOnce(s'))
      && (forall id :: InForce(s', id) == InForce(s, id))
      && (InFlight(s, a[k].(state := to)) ==> InFlight(s', b[k]))
  {
    var s' := s.(ledger := SetState(s.ledger, k, to, error));
    var a, b := s.ledger.entries, s'.ledger.entries;
    if OnlyJournaled(s) {
      forall id | s'.runs[id] > 0
        ensures Journaled(b, id)
      {
        var i :| 0 <= i < |a| && a[i].stepId == id;
        assert b[i].stepId == id;
      }
    }
  }

  /** The last COMMITTED record may be regarded as the one in flight, and conversely. */
  lemma ShapeStepBack<W>(env: Env<W>, s: Sys<W>, w0: W, k: nat)
    requires Shape(env, s, w0, k) && k > 0
    requires k < |s.ledger.entries| ==> Settled(s.ledger.entries[k].state)
    ensures Shape(env, s, w0, k - 1)
  {
  }

  lemma ShapeStepForward<W>(env: Env<W>, s: Sys<W>, w0: W, k: nat)
    requires Shape(env, s, w0, k) && k + 1 == |s.ledger.entries|
    requires s.ledger.entries[k].state == EffectState.Committed
    ensures Shape(env, s, w0, k + 1)
  {
  }

  lemma CommittedIsNotSettled(entries: seq<Entry>, k: nat)
    ensures 0 < k <= |entries| && (forall i | 0 <= i < k :: entries[i].state == EffectState.Committed)
      ==> !AllSettled(entries)
  {
    if 0 < k <= |entries| && entries[0].state == EffectState.Committed {
      assert !Settled(entries[0].state);
    }
  }

  /** When every record is settled nothing is in force and the world is the initial one. */
  lemma SettledIsUndone<W>(env: Env<W>, s: Sys<W>, w0: W, k: nat)
    requires Shape(env, s, w0, k) && AllSettled(s.ledger.entries)
    ensures Undone(s, w0)
  {
    var entries := s.ledger.entries;
    CommittedIsNotSettled(entries, k);
    forall id
      ensures s.runs[id] == s.undos[id] <= 1
    {
      if s.runs[id] > 0 {
        var i :| 0 <= i < |entries| && entries[i].stepId == id;
        assert !InForce(s, entries[i].stepId);
      }
    }
  }

  // ── Undoing the record in flight ──────────────────────────────────

  /** The world before the last action in force. */
  ghost function Before<W>(env: Env<W>, s: Sys<W>, w0: W, k: nat): Option<W>
    requires k <= |s.ledger.entries|
  {
    Replay(env, s.ledger.entries, k, w0)
  }

  lemma UndoTarget<W(!new)>(env: Env<W>, s: Sys<W>, w0: W, k: nat)
    requires Shape(env, s, w0, k) && k < |s.ledger.entries|
    requires InvertibleEntries(env, s.ledger.entries)
    requires InForce(s, s.ledger.entries[k].stepId)
    ensures Before(env, s, w0, k).Some?
    ensures env.undo(s.ledger.entries[k].compensation, s.world) == Before(env, s, w0, k)
  {
    var entries := s.ledger.entries;
    assert Replay(env, entries, k + 1, w0) == Some(s.world);
    assert Invertible(env, entries[k].action, entries[k].compensation);
  }

  lemma ShapeAfterUndo<W>(env: Env<W>, s: Sys<W>, w0: W, k: nat)
    requires Shape(env, s, w0, k) && k < |s.ledger.entries| && Before(env, s, w0, k).Some?
    requires s.ledger.entries[k].state == EffectState.Compensating && InForce(s, s.ledger.entries[k].stepId)
    ensures var id := s.ledger.entries[k].stepId;
      var s' := s.(world := Before(env, s, w0, k).value, undos := s.undos + multiset{id});
      Shape(env, s', w0, k) && !InForce(s', id)
  {
    var entries, id := s.ledger.entries, s.ledger.entries[k].stepId;
    var s' := s.(world := Before(env, s, w0, k).value, undos := s.undos + multiset{id});
    assert forall other | other != id :: s'.undos[other] == s.undos[other];
    assert s'.undos[id] == s.undos[id] + 1;
    assert Live(s', k) == k;
  }

  /** A reliable compensation call takes back exactly the last action in force; a clean failure changes nothing. */
  lemma UndoCall<W(!new)>(env: Env<W>, s: Sys<W>, w0: W, k: nat)
    requires Shape(env, s, w0, k) && k < |s.ledger.entries|
    requires InvertibleEntries(env, s.ledger.entries)
    requires s.ledger.entries[k].state == EffectState.Compensating && InForce(s, s.ledger.entries[k].stepId)
    requires env.choice(s.clock).undoCall in {Succeed, Fail(false), Raise(false)}
    ensures var e := s.ledger.entries[k];
      var a := ExecuteCompensation(env, s, e.stepId, e.compensation);
      && (a.reply == Succeeded <==> env.choice(s.clock).undoCall == Succeed)
      && (a.reply == Succeeded ==> Shape(env, a.s, w0, k) && !InForce(a.s, e.stepId))
      && (a.reply != Succeeded ==> a.s == Tick(s))
      && a.s.ledger == s.ledger && a.s.saga == s.saga
  {
    UndoTarget(env, s, w0, k);
    ShapeAfterUndo(env, Tick(s), w0, k);
  }

  // ── Rollback ──────────────────────────────────────────────────────

  /** What a rollback of m steps that could not undo record j leaves: the world right after step j. */
  ghost predicate LeftAt<W>(env: Env<W>, s: Sys<W>, w0: W, j: nat, m: nat) {
    var entries := s.ledger.entries;
    && j < m <= |entries|
    && (forall i | 0 <= i < j :: entries[i].state == EffectState.Committed)
    && entries[j].state == EffectState.CompensationFailed
    && (forall i | j < i < m :: entries[i].state == EffectState.Compensated)
    && Replay(env, entries, j + 1, w0) == Some(s.world)
  }

  /** Where a rollback that could not undo record j stops. */
  ghost predicate StuckAt<W>(env: Env<W>, s: Sys<W>, w0: W, j: nat, m: nat) {
    var entries := s.ledger.entries;
    && LeftAt(env, s, w0, j, m)
    && (forall i | m <= i < |entries| :: Settled(entries[i].state))
    && s.ledger.status == Some(SagaStatus.CompensationFailed)
    && s.ledger.deadLetters != [] && s.ledger.deadLetters[|s.ledger.deadLetters| - 1].stepName == entries[j].stepName
  }

  /** The position a move finds is the one whose id it names. */
  lemma MoveAtIs(l: Ledger, k: nat, site: Site, error: string)
    requires DistinctIds(l.entries) && k < |l.entries|
    ensures MoveAt(l, l.entries[k].stepId, site, error) ==
      if l.entries[k].state in Expected(site) then Some(SetState(l, k, Target(site), error)) else None
  {
    IndexOfUnique(l.entries, k);
  }

  lemma FailureIsStuck<W>(env: Env<W>, s: Sys<W>, w0: W, k: nat, m: nat, step: SagaStep)
    requires Shape(env, s, w0, k) && k < m <= |s.ledger.entries|
    requires s.ledger.entries[k].state == EffectState.Compensating && InForce(s, s.ledger.entries[k].stepId)
    requires step.stepId == s.ledger.entries[k].stepId && step.stepName == s.ledger.entries[k].stepName
    requires forall i | k < i < m :: s.ledger.entries[i].state == EffectState.Compensated
    ensures var t := HandleCompensationFailure(s, step);
      t.end == RollbackFailed && StuckAt(env, t.s, w0, k, m)
  {
    hide MoveAt, OnlyJournaled, Journaled;
    MoveAtIs(WriteStatus(s.ledger, SagaStatus.CompensationFailed), k, FailCompensation, UNDO_FAILED);
    var t := HandleCompensationFailure(s, step);
    ReplaySameActions(env, s.ledger.entries, t.s.ledger.entries, k + 1, w0);
  }

  /** A move of the record in flight to a truthful state goes through and keeps the shape. */
  lemma RecordMove<W>(env: Env<W>, s: Sys<W>, w0: W, k: nat, site: Site, error: string)
    requires Shape(env, s, w0, k) && k < |s.ledger.entries|
    requires s.ledger.entries[k].state in Expected(site)
    requires InFlight(s, s.ledger.entries[k].(state := Target(site)))
    ensures var moved := MoveAt(s.ledger, s.ledger.entries[k].stepId, site, error);
      && moved.Some?
      && Shape(env, s.(ledger := moved.value), w0, k)
      && OnlyChanged(s, s.(ledger := moved.value), k)
      && moved.value.entries[k].state == Target(site)
      && moved.value.published == s.ledger.published
  {
    MoveAtIs(s.ledger, k, site, error);
    ShapeAfterMove(env, s, w0, k, Target(site), error);
  }

  /** The in-memory step is the one the record was made from. */
  ghost predicate NamesEntry(step: SagaStep, e: Entry) {
    && step.stepId == e.stepId && step.stepName == e.stepName && step.action == e.action
    && step.compensation == e.compensation && step.idempotencyKey == e.idempotencyKey
  }

  /** Only record k changed, and only its state. */
  ghost predicate OnlyChanged<W>(s: Sys<W>, s': Sys<W>, k: nat) {
    var a, b := s.ledger.entries, s'.ledger.entries;
    && k < |a| == |b|
    && b == a[k := a[k].(state := b[k].state, error := b[k].error)]
  }

  /** Undoing the record in flight, with m the number of completed steps of the rollback. */
  lemma CompensationCallShape<W(!new)>(env: Env<W>, s: Sys<W>, w0: W, k: nat, m: nat, step: SagaStep)
    requires Shape(env, s, w0, k) && k < m <= |s.ledger.entries|
    requires InvertibleEntries(env, s.ledger.entries) && CleanUndo(env)
    requires s.ledger.entries[k].state == EffectState.Compensating && InForce(s, s.ledger.entries[k].stepId)
    requires NamesEntry(step, s.ledger.entries[k])
    requires forall i | k < i < m :: s.ledger.entries[i].state == EffectState.Compensated
    ensures var t := CompensationCall(env, s, step);
      && t.end in {Proceed, Crashed, RollbackFailed}
      && (t.end == RollbackFailed ==> !ReliableUndo(env) && StuckAt(env, t.s, w0, k, m))
      && (t.end != RollbackFailed ==> Shape(env, t.s, w0, k) && OnlyChanged(s, t.s, k))
      && (t.end == Proceed ==> t.s.ledger.entries[k].state == EffectState.Compensated)
  {
    hide Shape, StuckAt, ExecuteCompensation, HandleCompensationFailure, MoveAt;
    ShapeCore(env, s, Tick(s), w0, k);
    if !CrashesHere(env, s) {
      UndoCall(env, Tick(s), w0, k);
      var a := ExecuteCompensation(env, Tick(s), step.stepId, step.compensation);
      if a.reply != Succeeded {
        ShapeCore(env, Tick(s), a.s, w0, k);
        ShapeCore(env, a.s, Tick(a.s), w0, k);
        FailureIsStuck(env, a.s, w0, k, m, step);
        FailureIsStuck(env, Tick(a.s), w0, k, m, step);
      } else {
        ShapeCore(env, a.s, Tick(a.s), w0, k);
        RecordMove(env, Tick(a.s), w0, k, RecordCompensated, "");
        var s' := Tick(a.s).(ledger := MoveAt(a.s.ledger, step.stepId, RecordCompensated).value);
        ShapeCore(env, s', Tick(s'), w0, k);
      }
    }
  }

  lemma CompensateStepShape<W(!new)>(env: Env<W>, s: Sys<W>, w0: W, k: nat, m: nat, step: SagaStep)
    requires Shape(env, s, w0, k) && k < m <= |s.ledger.entries|
    requires InvertibleEntries(env, s.ledger.entries) && CleanUndo(env)
    requires s.ledger.entries[k].state == EffectState.Committed && NamesEntry(step, s.ledger.entries[k])
    requires forall i | k < i < m :: s.ledger.entries[i].state == EffectState.Compensated
    ensures var t := CompensateStep(env, s, step);
      && t.end in {Proceed, Crashed, RollbackFailed}
      && (t.end == RollbackFailed ==> !ReliableUndo(env) && StuckAt(env, t.s, w0, k, m))
      && (t.end != RollbackFailed ==> Shape(env, t.s, w0, k) && OnlyChanged(s, t.s, k))
      && (t.end == Proceed ==> t.s.ledger.entries[k].state == EffectState.Compensated)
  {
    hide Shape, StuckAt, CompensationCall, HandleCompensationFailure, MoveAt, ReliableUndo, CleanUndo, Invertible;
    assert InForce(s, s.ledger.entries[k].stepId) && s.runs[s.ledger.entries[k].stepId] == 1
      && IndexOf(s.ledger.entries, step.stepId) == k by {
      InForceAt(env, s, w0, k);
    }
    RecordMove(env, s, w0, k, BeginCompensation, "");
    var s' := s.(ledger := MoveAt(s.ledger, step.stepId, BeginCompensation).value);
    CompensationCallShape(env, s', w0, k, m, step);
  }

  lemma InForceAt<W>(env: Env<W>, s: Sys<W>, w0: W, k: nat)
    requires Shape(env, s, w0, k) && k < |s.ledger.entries|
    ensures IndexOf(s.ledger.entries, s.ledger.entries[k].stepId) == k
    ensures InFlight(s, s.ledger.entries[k])
    ensures InForce(s, s.ledger.entries[k].stepId) ==>
      s.runs[s.ledger.entries[k].stepId] == 1 && s.undos[s.ledger.entries[k].stepId] == 0
  {
    IndexOfUnique(s.ledger.entries, k);
  }

  /** What a rollback of m completed steps, of which `done` are still to undo, comes to. */
  lemma {:induction false} CompensateAllShape<W(!new)>(
    env: Env<W>, s: Sys<W>, w0: W, done: seq<SagaStep>, m: nat)
    requires Shape(env, s, w0, |done|) && |done| <= m <= |s.ledger.entries|
    requires InvertibleEntries(env, s.ledger.entries) && CleanUndo(env)
    requires Names(done, s.ledger.entries)
    requires forall i | |done| <= i < m :: s.ledger.entries[i].state == EffectState.Compensated
    requires |done| < |s.ledger.entries| ==> Settled(s.ledger.entries[|done|].state)
    ensures var t := CompensateAll(env, s, done);
      && t.end in {Restored, Crashed, RollbackFailed}
      && (t.end == Crashed ==> Interrupted(env, s, t.s, w0))
      && (t.end == RollbackFailed ==> !ReliableUndo(env) && exists j :: StuckAt(env, t.s, w0, j, m))
      && (t.end == Restored ==> Undone(t.s, w0) && t.s.ledger.status == Some(SagaStatus.RolledBack)
                                && m <= |t.s.ledger.entries|
                                && forall i | 0 <= i < m :: t.s.ledger.entries[i].state == EffectState.Compensated)
    decreases |done|
  {
    hide Shape, StuckAt, CompensateStep, ReliableUndo, CleanUndo, Invertible;
    if done == [] {
      NoneLeft(env, s, w0);
      assert CompensateAll(env, s, done).end == Restored;
    } else {
      var k := |done| - 1;
      var t := CompensateStep(env, s, done[k]);
      assert s.ledger.entries[k].state == EffectState.Committed by { CommittedBefore(env, s, w0, |done|); }
      ShapeStepBack(env, s, w0, |done|);
      CompensateStepShape(env, s, w0, k, m, done[k]);
      CompensateStepBookkeeping(env, s, done[k]);
      if t.end == Proceed {
        CompensateAllShape(env, t.s, w0, done[..k], m);
      }
    }
  }

  lemma CommittedBefore<W>(env: Env<W>, s: Sys<W>, w0: W, k: nat)
    requires Shape(env, s, w0, k)
    ensures k <= |s.ledger.entries| && forall i | 0 <= i < k :: s.ledger.entries[i].state == EffectState.Committed
  {
  }

  lemma NoneLeft<W>(env: Env<W>, s: Sys<W>, w0: W)
    requires Shape(env, s, w0, 0)
    requires s.ledger.entries != [] ==> Settled(s.ledger.entries[0].state)
    ensures Undone(s, w0)
  {
    SettledIsUndone(env, s, w0, 0);
  }

  /** A crash left the journal in shape; the durable status and the metadata still call for recovery. */
  ghost predicate Interrupted<W(!new)>(env: Env<W>, s: Sys<W>, s': Sys<W>, w0: W) {
    && Shaped(env, s', w0)
    && InvertibleEntries(env, s'.ledger.entries)
    && s'.ledger.metadata == s.ledger.metadata
    && s'.ledger.status in {s.ledger.status, Some(SagaStatus.Compensating)}
  }

  /** Nothing but the journal, the history variables, the world and the clock differ. */
  ghost predicate SameRecords<W>(s: Sys<W>, s': Sys<W>) {
    && s'.ledger.metadata == s.ledger.metadata && s'.ledger.status == s.ledger.status
    && s'.ledger.published == s.ledger.published && s'.saga == s.saga
  }

  lemma CompensationCallBookkeeping<W>(env: Env<W>, s: Sys<W>, step: SagaStep)
    ensures var t := CompensationCall(env, s, step); t.end != RollbackFailed ==> SameRecords(s, t.s)
  {
    hide HandleCompensationFailure, ExecuteCompensation, MoveAt;
    var a := ExecuteCompensation(env, Tick(s), step.stepId, step.compensation);
    UndoKeepsBooks(env, Tick(s), step.stepId, step.compensation);
    MoveKeepsBooks(a.s, step.stepId, RecordCompensated);
    forall x: Sys<W>
      ensures HandleCompensationFailure(x, step).end == RollbackFailed
    {
      HandledIsFailed(x, step);
    }
  }

  lemma UndoKeepsBooks<W>(env: Env<W>, s: Sys<W>, stepId: string, compensation: ActionPayload)
    ensures var a := ExecuteCompensation(env, s, stepId, compensation); a.s.ledger == s.ledger && a.s.saga == s.saga
  {
  }

  lemma MoveKeepsBooks<W>(s: Sys<W>, stepId: string, site: Site)
    ensures var moved := MoveAt(s.ledger, stepId, site); moved.Some? ==> SameRecords(s, s.(ledger := moved.value))
  {
  }

  lemma HandledIsFailed<W>(s: Sys<W>, step: SagaStep)
    ensures HandleCompensationFailure(s, step).end == RollbackFailed
  {
  }

  /** Until it fails, a compensation writes nothing but the journal. */
  lemma CompensateStepBookkeeping<W>(env: Env<W>, s: Sys<W>, step: SagaStep)
    ensures var t := CompensateStep(env, s, step); t.end != RollbackFailed ==> SameRecords(s, t.s)
  {
    hide IndexOf, HandleCompensationFailure, CompensationCall;
    HandledIsFailed(s, step);
    var marked := MoveAt(s.ledger, step.stepId, BeginCompensation);
    if marked.Some? {
      CompensationCallBookkeeping(env, s.(ledger := marked.value), step);
    } else {
      CompensationCallBookkeeping(env, s, step);
    }
  }
}
