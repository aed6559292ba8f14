/**
 Safety for any environment, lying resolvers, raising calls and failing compensations included:
 recovery, and a call on a saga whose records are all committed and remembered, report a rollback
 only when every record of the journal is settled, and quarantine what is in doubt. What a call on
 any other saga reports is the subject of module Reports.
 */
module Quarantine {
  import opened Prelude
  import opened Sagas
  import opened Journal
  import opened StepCodec
  import opened Environment
  import opened CoordinatorSpec
  import opened Restoration
  import opened ForwardShape

  /** The latest dead letter is about this step, and it is the only new one. */
  ghost predicate DeadLettered(before: Ledger, after: Ledger, stepName: string) {
    exists error :: after.deadLetters == before.deadLetters + [DeadLetter(stepName, error)]
  }

  // ── Recovery ──────────────────────────────────────────────────────

  /** What recovery did to the record at position k. */
  ghost predicate Handled<W>(s: Sys<W>, t: Turn<W>, k: nat) {
    && OnlyChanged(s, t.s, k)
    && t.end in {Proceed, Crashed, Quarantined}
    && (t.end == Proceed ==> Settled(t.s.ledger.entries[k].state))
    && (t.end != Quarantined ==> SameMeta(s, t.s) && t.s.ledger.deadLetters == s.ledger.deadLetters)
    && (t.end == Quarantined ==>
          && t.s.ledger.entries[k].state in {EffectState.Ambiguous, EffectState.CompensationFailed}
          && t.s.ledger.status == Some(SagaStatus.CompensationFailed)
          && DeadLettered(s.ledger, t.s.ledger, s.ledger.entries[k].stepName))
  }

  /** Record e is the one at position k, as far as recovery reads it. */
  ghost predicate IsAt(e: Entry, entries: seq<Entry>, k: nat) {
    k < |entries| && e.stepId == entries[k].stepId && e.stepName == entries[k].stepName && DistinctIds(entries)
  }

  lemma SetStateOnly<W>(s: Sys<W>, k: nat, to: EffectState, error: string)
    requires k < |s.ledger.entries| && IsAt(s.ledger.entries[k], s.ledger.entries, k)
    ensures var s' := s.(ledger := SetState(s.ledger, k, to, error));
      OnlyChanged(s, s', k) && DistinctIds(s'.ledger.entries) && s'.ledger.entries[k].state == to
  {
  }

  /** A move that its site expects goes through and touches one record. */
  lemma MoveGoesThrough<W>(s: Sys<W>, k: nat, e: Entry, site: Site, error: string)
    requires IsAt(e, s.ledger.entries, k) && s.ledger.entries[k].state in Expected(site)
    ensures var moved := MoveAt(s.ledger, e.stepId, site, error);
      && moved.Some?
      && var s' := s.(ledger := moved.value);
         && OnlyChanged(s, s', k) && SameMeta(s, s') && s'.ledger.deadLetters == s.ledger.deadLetters
         && IsAt(e, s'.ledger.entries, k) && s'.ledger.entries[k].state == Target(site)
         && s'.ledger.published == s.ledger.published
  {
    MoveAtIs(s.ledger, k, site, error);
    SetStateOnly(s, k, Target(site), error);
  }

  lemma HandledFrom<W>(s: Sys<W>, s1: Sys<W>, t: Turn<W>, k: nat)
    requires Handled(s1, t, k) && OnlyChanged(s, s1, k) && SameMeta(s, s1)
    requires s1.ledger.deadLetters == s.ledger.deadLetters
    ensures Handled(s, t, k)
  {
  }

  lemma FailRecoveryHandled<W>(s: Sys<W>, k: nat, e: Entry, error: string)
    requires IsAt(e, s.ledger.entries, k) && s.ledger.entries[k].state == EffectState.Compensating
    ensures Handled(s, FailRecoveryCompensation(s, e, error), k)
    ensures FailRecoveryCompensation(s, e, error).end == Quarantined
  {
    hide MoveAt;
    MoveGoesThrough(s, k, e, FailCompensation, error);
  }

  lemma RecoveryCompensationHandled<W>(env: Env<W>, s: Sys<W>, k: nat, e: Entry)
    requires IsAt(e, s.ledger.entries, k) && s.ledger.entries[k].state == EffectState.Compensating
    ensures Handled(s, RecoveryCompensation(env, s, e), k)
  {
    hide MoveAt, FailRecoveryCompensation, ReplyOf, TakesEffect, DistinctIds;
    var a := ExecuteCompensation(env, Tick(s), e.stepId, e.compensation);
    FailRecoveryHandled(a.s, k, e, UNDO_FAILED);
    MoveGoesThrough(Tick(a.s), k, e, RecordCompensated, "");
  }

  lemma BeginRecoveryHandled<W>(env: Env<W>, s: Sys<W>, k: nat, e: Entry)
    requires IsAt(e, s.ledger.entries, k)
    requires s.ledger.entries[k].state in {EffectState.Applied, EffectState.Committed}
    ensures Handled(s, BeginRecoveryCompensation(env, s, e), k)
  {
    hide MoveAt, RecoveryCompensation, DistinctIds;
    MoveGoesThrough(s, k, e, BeginCompensation, "");
    var s1 := RecoveryMove(s, e.stepId, BeginCompensation).s;
    RecoveryCompensationHandled(env, s1, k, e);
    HandledFrom(s, s1, RecoveryCompensation(env, s1, e), k);
  }

  lemma QuarantineForwardHandled<W>(s: Sys<W>, k: nat, e: Entry, error: string)
    requires IsAt(e, s.ledger.entries, k) && e.state == s.ledger.entries[k].state
    requires e.state in {EffectState.Executing, EffectState.Ambiguous}
    ensures Handled(s, QuarantineForward(s, e, error), k)
  {
    hide MoveAt, DistinctIds;
    if e.state == EffectState.Executing {
      MoveGoesThrough(s, k, e, MarkAmbiguous, error);
    }
  }

  lemma RecoverForwardHandled<W>(env: Env<W>, s: Sys<W>, k: nat)
    requires k < |s.ledger.entries| && IsAt(s.ledger.entries[k], s.ledger.entries, k)
    requires s.ledger.entries[k].state in {EffectState.Executing, EffectState.Ambiguous}
    ensures Handled(s, RecoverForward(env, s, s.ledger.entries[k]), k)
  {
    var e := s.ledger.entries[k];
    var r := ResolveForwardEffect(env, s, e);
    assert r.s.ledger == s.ledger;
    hide MoveAt, DistinctIds, ResolveForwardEffect, BeginRecoveryCompensation, QuarantineForward;
    match r.verdict
    case SaysNotApplied =>
      MoveGoesThrough(r.s, k, e, AbortUnapplied, "");
    case SaysApplied =>
      MoveGoesThrough(r.s, k, e, ConfirmApplied, "");
      var s1 := RecoveryMove(r.s, e.stepId, ConfirmApplied).s;
      BeginRecoveryHandled(env, s1, k, e);
      HandledFrom(s, s1, BeginRecoveryCompensation(env, s1, e), k);
    case SaysUnknown =>
      QuarantineForwardHandled(r.s, k, e, OUTCOME_UNKNOWN);
    case ResolverRaised =>
      QuarantineForwardHandled(r.s, k, e, RESOLVER_FAILED);
  }

  lemma RecoverUndoHandled<W>(env: Env<W>, s: Sys<W>, k: nat)
    requires k < |s.ledger.entries| && IsAt(s.ledger.entries[k], s.ledger.entries, k)
    requires s.ledger.entries[k].state == EffectState.Compensating
    ensures Handled(s, RecoverUndo(env, s, s.ledger.entries[k]), k)
  {
    var e := s.ledger.entries[k];
    var r := ResolveCompensation(env, s, e);
    assert r.s.ledger == s.ledger;
    hide MoveAt, DistinctIds, ResolveCompensation, RecoveryCompensation, FailRecoveryCompensation;
    match r.verdict
    case SaysApplied =>
      MoveGoesThrough(r.s, k, e, RecordCompensated, "");
    case SaysNotApplied =>
      RecoveryCompensationHandled(env, r.s, k, e);
    case SaysUnknown =>
      FailRecoveryHandled(r.s, k, e, UNDO_UNKNOWN);
    case ResolverRaised =>
      FailRecoveryHandled(r.s, k, e, UNDO_RESOLVER_FAILED);
  }

  lemma RecoverEffectHandled<W>(env: Env<W>, s: Sys<W>, k: nat)
    requires k < |s.ledger.entries| && DistinctIds(s.ledger.entries)
    ensures Handled(s, RecoverEffect(env, s, s.ledger.entries[k]), k)
  {
    var e := s.ledger.entries[k];
    assert IsAt(e, s.ledger.entries, k);
    hide MoveAt, DistinctIds, BeginRecoveryCompensation, RecoverForward, RecoverUndo;
    match e.state
    case Executing | Ambiguous => RecoverForwardHandled(env, s, k);
    case Compensating => RecoverUndoHandled(env, s, k);
    case Prepared => MoveGoesThrough(s, k, e, AbortPrepared, "");
    case Applied | Committed => BeginRecoveryHandled(env, s, k, e);
    case CompensationFailed =>
      assert DeadLettered(s.ledger, RecoverEffect(env, s, e).s.ledger, e.stepName);
    case Aborted | Compensated =>
  }

  /** Recovery stopped at record j: it is in doubt, newer ones are settled, older ones as they were. */
  ghost predicate HaltedAt<W>(s: Sys<W>, s': Sys<W>, j: nat) {
    var a, b := s.ledger.entries, s'.ledger.entries;
    && j < |a| == |b|
    && b[..j] == a[..j]
    && b[j].state in {EffectState.Ambiguous, EffectState.CompensationFailed}
    && (forall i | j < i < |b| :: Settled(b[i].state))
    && s'.ledger.status == Some(SagaStatus.CompensationFailed)
    && DeadLettered(s.ledger, s'.ledger, a[j].stepName)
  }

  /** `effects` is the unvisited part of the snapshot; everything after it is settled. */
  lemma {:induction false} RecoverEffectsHandled<W>(env: Env<W>, s: Sys<W>, effects: seq<Entry>)
    requires DistinctIds(s.ledger.entries)
    requires |effects| <= |s.ledger.entries| && effects == s.ledger.entries[..|effects|]
    requires forall i | |effects| <= i < |s.ledger.entries| :: Settled(s.ledger.entries[i].state)
    ensures var t := RecoverEffects(env, s, effects);
      && t.end in {Proceed, Crashed, Quarantined}
      && (t.end == Proceed ==> AllSettled(t.s.ledger.entries))
      && (t.end != Quarantined ==> SameMeta(s, t.s))
      && (t.end == Quarantined ==> exists j :: 0 <= j < |effects| && HaltedAt(s, t.s, j))
    decreases |effects|
  {
    if effects != [] {
      var k := |effects| - 1;
      assert effects[k] == s.ledger.entries[k];
      RecoverEffectHandled(env, s, k);
      hide RecoverEffect;
      var t := RecoverEffect(env, s, effects[k]);
      if t.end == Proceed {
        assert t.s.ledger.entries[..k] == effects[..k];
        RecoverEffectsHandled(env, t.s, effects[..k]);
        var u := RecoverEffects(env, t.s, effects[..k]);
        if u.end == Quarantined {
          var j :| 0 <= j < k && HaltedAt(t.s, u.s, j);
          assert HaltedAt(s, u.s, j) by {
            assert t.s.ledger.entries[..j] == s.ledger.entries[..j];
            assert t.s.ledger.entries[j] == s.ledger.entries[j];
          }
        }
      } else if t.end == Quarantined {
        assert HaltedAt(s, t.s, k);
      }
    }
  }

  /**
   Recovery never falsely claims restoration, whatever the resolvers and the tools answer. For a
   journaled saga it ends with status ROLLED_BACK only when every record is ABORTED or
   COMPENSATED. When it gives up it leaves COMPENSATION_FAILED and a dead letter for the record
   it stopped at, and does not touch older ones. No compare-and-set is lost.
   */
  lemma RecoveryNeverFalselyClaims<W>(env: Env<W>, s: Sys<W>)
    requires DistinctIds(s.ledger.entries) && s.ledger.entries != []
    ensures var t := Recover(env, s);
      && t.end in {Proceed, Paused, Denied, Restored, Crashed, Quarantined}
      && (t.end == Restored ==>
            AllSettled(t.s.ledger.entries) && t.s.ledger.status == Some(SagaStatus.RolledBack))
      && (t.end == Quarantined ==> exists j :: 0 <= j < |s.ledger.entries| && HaltedAt(s, t.s, j))
      && (t.end == Crashed ==> SameMeta(s, t.s))
      && (t.end in {Proceed, Paused, Denied} ==> t.s.ledger == s.ledger)
  {
    assert s.ledger.entries[..|s.ledger.entries|] == s.ledger.entries;
    RecoverEffectsHandled(env, s.(saga := None), s.ledger.entries);
    hide RecoverEffects, HaltedAt, DeserializeSteps, CommittedSteps, DistinctIds;
    var t := Recover(env, s);
    if t.end == Quarantined {
      var j :| 0 <= j < |s.ledger.entries| && HaltedAt(s.(saga := None), t.s, j);
      HaltedSame(s, t.s, j);
    }
  }

  lemma HaltedSame<W>(s: Sys<W>, s': Sys<W>, j: nat)
    requires HaltedAt(s.(saga := None), s', j)
    ensures HaltedAt(s, s', j)
  {
  }

  // ── Rollback in any environment ───────────────────────────────────

  /** What an attempt to undo the committed record k came to. */
  ghost predicate UndoTried<W>(s: Sys<W>, t: Turn<W>, k: nat) {
    && OnlyChanged(s, t.s, k)
    && t.end in {Proceed, Crashed, RollbackFailed}
    && (t.end == Proceed ==> t.s.ledger.entries[k].state == EffectState.Compensated)
    && (t.end != RollbackFailed ==> SameMeta(s, t.s) && t.s.saga == s.saga
                                    && t.s.ledger.deadLetters == s.ledger.deadLetters)
    && (t.end == RollbackFailed ==>
          && t.s.ledger.entries[k].state == EffectState.CompensationFailed
          && t.s.ledger.status == Some(SagaStatus.CompensationFailed)
          && DeadLettered(s.ledger, t.s.ledger, s.ledger.entries[k].stepName))
  }

  ghost predicate NamesId(step: SagaStep, entries: seq<Entry>, k: nat) {
    k < |entries| && NamesEntry(step, entries[k]) && DistinctIds(entries)
  }

  lemma FailureTried<W>(s: Sys<W>, k: nat, step: SagaStep)
    requires NamesId(step, s.ledger.entries, k) && s.ledger.entries[k].state == EffectState.Compensating
    ensures UndoTried(s, HandleCompensationFailure(s, step), k)
    ensures HandleCompensationFailure(s, step).end == RollbackFailed
  {
    var s' := WithStatus(WithMemoryStatus(s, SagaStatus.CompensationFailed), SagaStatus.CompensationFailed);
    MoveAtIs(s'.ledger, k, FailCompensation, UNDO_FAILED);
    hide MoveAt;
    SetStateOnly(s', k, EffectState.CompensationFailed, UNDO_FAILED);
    assert DeadLettered(s.ledger, HandleCompensationFailure(s, step).s.ledger, s.ledger.entries[k].stepName);
  }

  lemma CompensationCallTried<W>(env: Env<W>, s: Sys<W>, k: nat, step: SagaStep)
    requires NamesId(step, s.ledger.entries, k) && s.ledger.entries[k].state == EffectState.Compensating
    ensures UndoTried(s, CompensationCall(env, s, step), k)
  {
    var a := ExecuteCompensation(env, Tick(s), step.stepId, step.compensation);
    FailureTried(a.s, k, step);
    FailureTried(Tick(a.s), k, step);
    var e := s.ledger.entries[k];
    assert IsAt(e, s.ledger.entries, k);
    MoveGoesThrough(Tick(a.s), k, e, RecordCompensated, "");
    hide MoveAt, HandleCompensationFailure, ReplyOf, TakesEffect, DistinctIds;
  }

  lemma CompensateStepTried<W>(env: Env<W>, s: Sys<W>, k: nat, step: SagaStep)
    requires NamesId(step, s.ledger.entries, k) && s.ledger.entries[k].state == EffectState.Committed
    ensures UndoTried(s, CompensateStep(env, s, step), k)
  {
    IndexOfUnique(s.ledger.entries, k);
    var e := s.ledger.entries[k];
    assert IsAt(e, s.ledger.entries, k);
    hide MoveAt, CompensationCall, HandleCompensationFailure, DistinctIds;
    MoveGoesThrough(s, k, e, BeginCompensation, "");
    var s1 := s.(ledger := MoveAt(s.ledger, step.stepId, BeginCompensation).value);
    CompensationCallTried(env, s1, k, step);
  }

  /** The completed list names the first records of the journal. */
  ghost predicate NamesIds(completed: seq<SagaStep>, entries: seq<Entry>) {
    Names(completed, entries) && DistinctIds(entries)
  }

  ghost predicate AllInState(entries: seq<Entry>, n: nat, state: EffectState) {
    n <= |entries| && forall i | 0 <= i < n :: entries[i].state == state
  }

  /** A rollback over the first n records leaves the others alone and says truthfully how it ended. */
  ghost predicate RolledOver<W>(s: Sys<W>, t: Turn<W>, n: nat) {
    var a, b := s.ledger.entries, t.s.ledger.entries;
    && n <= |a| == |b|
    && b[n..] == a[n..]
    && (forall i | 0 <= i < |a| :: SameIdentity(a[i], b[i]))
    && t.end in {Restored, Crashed, RollbackFailed}
    && (t.end == Restored ==>
          && AllInState(b, n, EffectState.Compensated)
          && t.s.ledger.status == Some(SagaStatus.RolledBack)
          && (t.s.saga.Some? ==> t.s.saga.value.status == SagaStatus.RolledBack)
          && t.s.ledger.deadLetters == s.ledger.deadLetters)
    && (t.end == Crashed ==> SameMeta(s, t.s))
    && (t.end == RollbackFailed ==>
          && t.s.ledger.status == Some(SagaStatus.CompensationFailed)
          && exists k :: 0 <= k < n && b[k].state == EffectState.CompensationFailed
                         && DeadLettered(s.ledger, t.s.ledger, b[k].stepName))
  }

  ghost predicate SameIdentity(a: Entry, b: Entry) {
    a.stepId == b.stepId && a.stepName == b.stepName && a.idempotencyKey == b.idempotencyKey
  }

  lemma {:induction false} CompensateAllRolledOver<W>(env: Env<W>, s: Sys<W>, done: seq<SagaStep>, n: nat)
    requires NamesIds(done, s.ledger.entries) && |done| <= n <= |s.ledger.entries|
    requires AllInState(s.ledger.entries, |done|, EffectState.Committed)
    requires forall i | |done| <= i < n :: s.ledger.entries[i].state == EffectState.Compensated
    ensures RolledOver(s, CompensateAll(env, s, done), n)
    decreases |done|
  {
    hide CompensateStep, UndoTried, RolledOver, DistinctIds;
    if done == [] {
      NothingToUndo(env, s, n);
    } else {
      var k := |done| - 1;
      CompensateStepTried(env, s, k, done[k]);
      var t := CompensateStep(env, s, done[k]);
      if t.end == Proceed {
        UndoneOne(s, t, done, k, n);
        CompensateAllRolledOver(env, t.s, done[..k], n);
        RolledOverFrom(s, t.s, CompensateAll(env, t.s, done[..k]), k, n);
      } else {
        StoppedHere(s, t, k, n);
      }
    }
  }

  lemma NothingToUndo<W>(env: Env<W>, s: Sys<W>, n: nat)
    requires n <= |s.ledger.entries| && forall i | 0 <= i < n :: s.ledger.entries[i].state == EffectState.Compensated
    ensures RolledOver(s, CompensateAll(env, s, []), n)
  {
  }

  lemma StoppedHere<W>(s: Sys<W>, t: Turn<W>, k: nat, n: nat)
    requires UndoTried(s, t, k) && t.end != Proceed && k < n <= |s.ledger.entries|
    ensures RolledOver(s, t, n)
  {
    assert t.s.ledger.entries[n..] == s.ledger.entries[n..];
  }

  lemma UndoneOne<W>(s: Sys<W>, t: Turn<W>, done: seq<SagaStep>, k: nat, n: nat)
    requires UndoTried(s, t, k) && t.end == Proceed && k < n <= |s.ledger.entries| && |done| == k + 1
    requires NamesIds(done, s.ledger.entries) && AllInState(s.ledger.entries, k + 1, EffectState.Committed)
    requires forall i | k < i < n :: s.ledger.entries[i].state == EffectState.Compensated
    ensures NamesIds(done[..k], t.s.ledger.entries) && AllInState(t.s.ledger.entries, k, EffectState.Committed)
    ensures |t.s.ledger.entries| == |s.ledger.entries|
    ensures forall i | k <= i < n :: t.s.ledger.entries[i].state == EffectState.Compensated
    ensures OnlyChanged(s, t.s, k) && SameMeta(s, t.s) && t.s.ledger.deadLetters == s.ledger.deadLetters
  {
  }

  lemma RolledOverFrom<W>(s: Sys<W>, s1: Sys<W>, u: Turn<W>, k: nat, n: nat)
    requires RolledOver(s1, u, n) && OnlyChanged(s, s1, k) && k < n
    requires SameMeta(s, s1) && s1.ledger.deadLetters == s.ledger.deadLetters
    ensures RolledOver(s, u, n)
  {
    var a, b, c := s.ledger.entries, s1.ledger.entries, u.s.ledger.entries;
    assert b[n..] == a[n..];
    forall i | 0 <= i < |a|
      ensures SameIdentity(a[i], c[i])
    {
      assert SameIdentity(b[i], c[i]);
    }
    if u.end == RollbackFailed {
      var j :| 0 <= j < n && c[j].state == EffectState.CompensationFailed
        && DeadLettered(s1.ledger, u.s.ledger, c[j].stepName);
      assert DeadLettered(s.ledger, u.s.ledger, c[j].stepName);
    }
  }

  // ── Forward execution in any environment ──────────────────────────

  /** Between two steps: every record is committed and named by the completed list. */
  ghost predicate Tidy<W>(s: Sys<W>) {
    && s.saga.Some?
    && |s.saga.value.completedSteps| == |s.ledger.entries|
    && NamesIds(s.saga.value.completedSteps, s.ledger.entries)
    && AllInState(s.ledger.entries, |s.ledger.entries|, EffectState.Committed)
  }

  /** During a step: as Tidy, except for the last record, which is the step's. */
  ghost predicate TidyBut<W>(s: Sys<W>, step: SagaStep) {
    var n := |s.ledger.entries| - 1;
    && s.saga.Some? && n >= 0
    && |s.saga.value.completedSteps| == n
    && NamesIds(s.saga.value.completedSteps, s.ledger.entries)
    && AllInState(s.ledger.entries, n, EffectState.Committed)
    && NamesId(step, s.ledger.entries, n)
  }

  /** The last record is the one of a call that raised, and operators are told so. */
  ghost predicate QuarantinedLast<W>(s: Sys<W>) {
    var entries, letters := s.ledger.entries, s.ledger.deadLetters;
    && entries != [] && Last(entries).state == EffectState.Ambiguous
    && s.ledger.status == Some(SagaStatus.CompensationFailed)
    && letters != [] && Last(letters) == DeadLetter(Last(entries).stepName, CALL_RAISED)
    && s.saga.Some?
    // Older steps are undone first; when all of them were, memory still says ROLLED_BACK.
    && (AllInState(entries, |entries| - 1, EffectState.Compensated) ==>
          s.saga.value.status == SagaStatus.RolledBack)
  }

  /** How an operation can end in any environment. */
  ghost predicate SafeEnd<W>(s: Sys<W>, t: Turn<W>) {
    match t.end
    case Crashed => t.s.ledger.status in {s.ledger.status, Some(SagaStatus.Compensating)}
    case Restored => AllSettled(t.s.ledger.entries) && t.s.ledger.status == Some(SagaStatus.RolledBack)
    case RollbackFailed => t.s.ledger.status == Some(SagaStatus.CompensationFailed) && t.s.ledger.deadLetters != []
    case Quarantined => QuarantinedLast(t.s)
    case AllCommitted => Tidy(t.s) && t.s.ledger.status == Some(SagaStatus.Committed)
    case Paused => Tidy(t.s) && t.s.ledger.status == Some(SagaStatus.AwaitingApproval)
    case _ => false
  }

  lemma AbandonRolledOver<W>(env: Env<W>, s: Sys<W>)
    requires s.saga.Some? && NamesIds(s.saga.value.completedSteps, s.ledger.entries)
    requires AllInState(s.ledger.entries, |s.saga.value.completedSteps|, EffectState.Committed)
    ensures RolledOver(WithStatus(s, SagaStatus.Compensating), Abandon(env, s), |s.saga.value.completedSteps|)
    ensures Abandon(env, s).s.saga.Some?
  {
    hide CompensateAll, RolledOver;
    CompensateAllRolledOver(env, WithStatus(s, SagaStatus.Compensating), s.saga.value.completedSteps,
                            |s.saga.value.completedSteps|);
  }

  /** All records beyond the completed ones being settled, a rollback ends safely. */
  lemma AbandonSafe<W>(env: Env<W>, s: Sys<W>)
    requires s.saga.Some? && NamesIds(s.saga.value.completedSteps, s.ledger.entries)
    requires AllInState(s.ledger.entries, |s.saga.value.completedSteps|, EffectState.Committed)
    requires forall i | |s.saga.value.completedSteps| <= i < |s.ledger.entries| :: Settled(s.ledger.entries[i].state)
    ensures SafeEnd(s, Abandon(env, s)) && Abandon(env, s).end in {Crashed, Restored, RollbackFailed}
  {
    hide Abandon, RolledOver, DistinctIds;
    AbandonRolledOver(env, s);
    RolledOverIsSafe(s, Abandon(env, s), |s.saga.value.completedSteps|);
  }

  lemma RolledOverIsSafe<W>(s: Sys<W>, t: Turn<W>, m: nat)
    requires RolledOver(WithStatus(s, SagaStatus.Compensating), t, m)
    requires forall i | m <= i < |s.ledger.entries| :: Settled(s.ledger.entries[i].state)
    ensures SafeEnd(s, t) && t.end in {Crashed, Restored, RollbackFailed}
  {
    var a, b := s.ledger.entries, t.s.ledger.entries;
    assert forall i | m <= i < |b| :: b[i] == b[m..][i - m] == a[m..][i - m] == a[i];
  }

  /** A forward call raised: the effect is quarantined unless the process dies during the rollback. */
  lemma AbandonAmbiguousSafe<W>(env: Env<W>, s: Sys<W>, step: SagaStep)
    requires TidyBut(s, step) && Last(s.ledger.entries).state == EffectState.Executing
    ensures var t := AbandonAmbiguous(env, s, step);
      SafeEnd(s, t) && t.end in {Crashed, Quarantined}
  {
    hide Abandon, RolledOver, DistinctIds;
    AbandonRolledOver(env, s);
    MarkedSafe(s, Abandon(env, s), step);
  }

  /** The state after the rollback, marked as the coordinator marks it. */
  lemma MarkedSafe<W>(s: Sys<W>, t: Turn<W>, step: SagaStep)
    requires TidyBut(s, step) && Last(s.ledger.entries).state == EffectState.Executing
    requires RolledOver(WithStatus(s, SagaStatus.Compensating), t, |s.ledger.entries| - 1) && t.s.saga.Some?
    ensures t.end == Crashed ==> SafeEnd(s, t)
    ensures t.end != Crashed ==>
      var moved := MoveAt(t.s.ledger, step.stepId, RecordRaised, CALL_RAISED);
      QuarantinedLast(t.s.(ledger := DeadLetterRecovery(moved.GetOr(t.s.ledger), step.stepName, CALL_RAISED)))
  {
    hide DeadLettered;
    var n := |s.ledger.entries| - 1;
    if t.end != Crashed {
      LastUntouched(s, t.s, n, step);
      MoveAtIs(t.s.ledger, n, RecordRaised, CALL_RAISED);
      if t.end == RollbackFailed {
        var k :| 0 <= k < n && t.s.ledger.entries[k].state == EffectState.CompensationFailed;
        var after := SetState(t.s.ledger, n, EffectState.Ambiguous, CALL_RAISED).entries;
        assert after[k].state == EffectState.CompensationFailed;
      }
    }
  }

  lemma LastUntouched<W>(s: Sys<W>, s': Sys<W>, n: nat, step: SagaStep)
    requires NamesId(step, s.ledger.entries, n) && n + 1 == |s.ledger.entries| == |s'.ledger.entries|
    requires s'.ledger.entries[n..] == s.ledger.entries[n..]
    requires forall i | 0 <= i <= n :: SameIdentity(s.ledger.entries[i], s'.ledger.entries[i])
    ensures s'.ledger.entries[n] == s.ledger.entries[n] && DistinctIds(s'.ledger.entries)
  {
    assert s'.ledger.entries[n] == s'.ledger.entries[n..][0];
  }

  // ── The step, from its end to its beginning ───────────────────────

  lemma TidyMove<W>(s: Sys<W>, step: SagaStep, site: Site, error: string)
    requires TidyBut(s, step) && Last(s.ledger.entries).state in Expected(site)
    ensures var moved := MoveAt(s.ledger, step.stepId, site, error);
      && moved.Some? && TidyBut(s.(ledger := moved.value), step)
      && Last(moved.value.entries).state == Target(site) && SameMeta(s, s.(ledger := moved.value))
  {
    MoveAtIs(s.ledger, |s.ledger.entries| - 1, site, error);
    hide MoveAt;
    SetStateOnly(s, |s.ledger.entries| - 1, Target(site), error);
  }

  lemma TidySame<W>(s: Sys<W>, s': Sys<W>, step: SagaStep)
    requires TidyBut(s, step) && s'.ledger.entries == s.ledger.entries && s'.saga == s.saga
    ensures TidyBut(s', step)
  {
  }

  lemma CommitTidy<W>(s: Sys<W>, step: SagaStep)
    requires TidyBut(s, step) && Last(s.ledger.entries).state == EffectState.Applied
    ensures var s1 := AppendCompleted(s, step);
      var committed := CommitEffect(s1.ledger, step.stepId, step.idempotencyKey);
      committed.Some? && Tidy(s1.(ledger := committed.value)) && SameMeta(s, s1.(ledger := committed.value))
  {
    var n := |s.ledger.entries| - 1;
    IndexOfUnique(s.ledger.entries, n);
    hide IndexOf;
    SetStateOnly(s, n, EffectState.Committed, s.ledger.entries[n].error);
  }

  lemma RecordStepSafe<W>(env: Env<W>, s: Sys<W>, step: SagaStep)
    requires TidyBut(s, step) && Last(s.ledger.entries).state == EffectState.Executing
    ensures var t := RecordStep(env, s, step);
      && t.end in {Proceed, Crashed}
      && (t.end == Proceed ==> Tidy(t.s)) && SameMeta(s, t.s)
  {
    hide TidyBut, MoveAt, CommitEffect, AbandonAmbiguous, Abandon, AppendCompleted;
    assert s.saga.Some? by { TidyHasSaga(s, step); }
    TidyMove(s, step, RecordApplied, "");
    var s1 := s.(ledger := MoveAt(s.ledger, step.stepId, RecordApplied).value);
    TidySame(s1, Tick(s1), step);
    CommitTidy(Tick(s1), step);
    AppendKeepsLedger(Tick(s1), step);
  }

  lemma TidyHasSaga<W>(s: Sys<W>, step: SagaStep)
    requires TidyBut(s, step)
    ensures s.saga.Some? && s.ledger.entries != []
  {
  }

  lemma SafeEndFrom<W>(s: Sys<W>, s1: Sys<W>, t: Turn<W>)
    requires SafeEnd(s1, t) && SameMeta(s, s1)
    ensures SafeEnd(s, t)
  {
  }

  /** A refused call: the record is aborted and everything before it undone. */
  lemma RejectSafe<W>(env: Env<W>, s: Sys<W>, step: SagaStep)
    requires TidyBut(s, step) && Last(s.ledger.entries).state == EffectState.Executing
    ensures var moved := MoveAt(s.ledger, step.stepId, RejectCall, CALL_FAILED);
      && moved.Some?
      && SafeEnd(s, Abandon(env, Tick(s).(ledger := moved.value)))
      && Abandon(env, Tick(s).(ledger := moved.value)).end in {Crashed, Restored, RollbackFailed}
  {
    hide MoveAt, Abandon, SafeEnd, DistinctIds;
    TidySame(s, Tick(s), step);
    TidyMove(Tick(s), step, RejectCall, CALL_FAILED);
    var s' := Tick(s).(ledger := MoveAt(s.ledger, step.stepId, RejectCall, CALL_FAILED).value);
    AbandonSafe(env, s');
    SafeEndFrom(s, s', Abandon(env, s'));
  }

  // ── Where a forward call raises ───────────────────────────────────

  ghost predicate CallRaises<W>(env: Env<W>, s: Sys<W>, step: SagaStep) {
    !CrashesHere(env, s) && Execute(env, Tick(s), step.stepId, step.action).reply == Raised
  }

  /** This step gets as far as its call, and the call raises. */
  ghost predicate StepRaises<W>(env: Env<W>, s: Sys<W>, step: SagaStep) {
    var prepared := PrepareEffect(s.ledger, step);
    && prepared.Some?
    && var s1 := s.(ledger := prepared.value);
    && !CrashesHere(env, s1)
    && var claimed := MoveAt(s1.ledger, step.stepId, Claim);
    && claimed.Some? && CallRaises(env, Tick(s1).(ledger := claimed.value), step)
  }

  ghost predicate AttemptRaises<W>(env: Env<W>, s: Sys<W>, step: SagaStep) {
    var c := env.choice(s.clock);
    && c.gate == Admit && c.preflight && (step.requiresApproval ==> step.approved)
    && StepRaises(env, Tick(s), step)
  }

  /** During this execution some forward call raises. */
  ghost predicate SomeCallRaises<W>(env: Env<W>, s: Sys<W>, steps: seq<SagaStep>)
    requires s.saga.Some?
    decreases |steps|
  {
    steps != [] &&
    if AlreadyCommitted(s.ledger, steps[0].idempotencyKey) then SomeCallRaises(env, s, steps[1..])
    else
      || AttemptRaises(env, s, steps[0])
      || (AttemptStep(env, s, steps).end == Proceed && SomeCallRaises(env, AttemptStep(env, s, steps).s, steps[1..]))
  }

  lemma CallStepSafe<W>(env: Env<W>, s: Sys<W>, step: SagaStep)
    requires TidyBut(s, step) && Last(s.ledger.entries).state == EffectState.Executing
    ensures s.saga.Some?
    ensures var t := CallStep(env, s, step);
      && t.end in {Proceed, Crashed, Restored, RollbackFailed, Quarantined}
      && (t.end == Proceed ==> Tidy(t.s) && SameMeta(s, t.s))
      && (t.end != Proceed ==> SafeEnd(s, t))
      && (CallRaises(env, s, step) ==> t.end in {Crashed, Quarantined})
      && (t.end == Quarantined ==> CallRaises(env, s, step))
  {
    hide TidyBut, Tidy, MoveAt, RecordStep, Abandon, AbandonAmbiguous, QuarantinedLast;
    TidyHasSaga(s, step);
    if !CrashesHere(env, s) {
      var a := Execute(env, Tick(s), step.stepId, step.action);
      assert a.s.ledger == s.ledger && a.s.saga == s.saga;
      hide Execute, SafeEnd;
      CrashSafe(s, Tick(a.s));
      TidySame(s, a.s, step);
      TidySame(s, Tick(a.s), step);
      AbandonAmbiguousSafe(env, a.s, step);
      RejectSafe(env, a.s, step);
      RecordStepSafe(env, Tick(a.s), step);
    }
  }

  lemma PrepareTidy<W>(s: Sys<W>, step: SagaStep)
    requires Tidy(s) && IndexOf(s.ledger.entries, step.stepId) == |s.ledger.entries|
    ensures PrepareEffect(s.ledger, step).Some?
    ensures var l := PrepareEffect(s.ledger, step).value;
      && TidyBut(s.(ledger := l), step) && Last(l.entries).state == EffectState.Prepared
      && SameMeta(s, s.(ledger := l))
  {
  }

  lemma TidyAbandon<W>(env: Env<W>, s: Sys<W>, s': Sys<W>)
    requires Tidy(s) && s'.ledger == s.ledger && s'.saga == s.saga
    ensures SafeEnd(s, Abandon(env, s')) && Abandon(env, s').end in {Crashed, Restored, RollbackFailed}
  {
    hide Abandon, SafeEnd, DistinctIds;
    AbandonSafe(env, s');
    SafeEndFrom(s, s', Abandon(env, s'));
  }

  lemma RepeatedTidy<W>(s: Sys<W>, step: SagaStep)
    requires Tidy(s) && IndexOf(s.ledger.entries, step.stepId) < |s.ledger.entries|
    ensures var prepared := PrepareEffect(s.ledger, step);
      prepared.None? || (prepared == Some(s.ledger) && MoveAt(s.ledger, step.stepId, Claim).None?)
  {
    assert s.ledger.entries[IndexOf(s.ledger.entries, step.stepId)].state == EffectState.Committed;
  }

  lemma PrepareStepSafe<W>(env: Env<W>, s: Sys<W>, step: SagaStep)
    requires Tidy(s)
    ensures s.saga.Some?
    ensures var t := PrepareStep(env, s, step);
      && t.end in {Proceed, Crashed, Restored, RollbackFailed, Quarantined}
      && (t.end == Proceed ==> Tidy(t.s) && SameMeta(s, t.s))
      && (t.end != Proceed ==> SafeEnd(s, t))
      && (StepRaises(env, s, step) ==> t.end in {Crashed, Quarantined})
      && (t.end == Quarantined ==> StepRaises(env, s, step))
  {
    assert s.saga.Some?;
    hide TidyBut, Tidy, MoveAt, PrepareEffect, CallStep, Abandon, SafeEnd, SameMeta, CallRaises;
    if IndexOf(s.ledger.entries, step.stepId) < |s.ledger.entries| {
      RepeatedTidy(s, step);
      TidyAbandon(env, s, s);
      TidyAbandon(env, s, Tick(s));
      CrashSafe(s, Tick(s));
    } else {
      PrepareTidy(s, step);
      var s1 := s.(ledger := PrepareEffect(s.ledger, step).value);
      CrashSafe(s, Tick(s1));
      TidySame(s1, Tick(s1), step);
      TidyMove(Tick(s1), step, Claim, "");
      var s2 := Tick(s1).(ledger := MoveAt(s1.ledger, step.stepId, Claim).value);
      CallStepSafe(env, s2, step);
      SameMetaTrans(s, s1, s2, CallStep(env, s2, step).s);
      if CallStep(env, s2, step).end != Proceed {
        SafeEndFrom(s, s2, CallStep(env, s2, step));
      }
    }
  }

  lemma CrashSafe<W>(s: Sys<W>, s': Sys<W>)
    ensures SameMeta(s, s') ==> SafeEnd(s, Turn(s', Crashed))
    ensures s'.ledger == s.ledger ==> SameMeta(s, s')
    ensures SameMeta(s, Tick(s')) == SameMeta(s, s')
  {
  }

  lemma SameMetaTrans<W>(s: Sys<W>, s1: Sys<W>, s2: Sys<W>, s3: Sys<W>)
    requires SameMeta(s, s1) && SameMeta(Tick(s1), s2)
    ensures SameMeta(s, s2) && (SameMeta(s2, s3) ==> SameMeta(s, s3)) && SameMeta(s, Tick(s1))
  {
  }

  lemma AttemptStepSafe<W>(env: Env<W>, s: Sys<W>, steps: seq<SagaStep>)
    requires Tidy(s) && steps != []
    ensures s.saga.Some?
    ensures var t := AttemptStep(env, s, steps);
      && t.end in {Proceed, Crashed, Restored, RollbackFailed, Quarantined, Paused}
      && (t.end == Proceed ==> Tidy(t.s) && SameMeta(s, t.s))
      && (t.end != Proceed ==> SafeEnd(s, t))
      && (AttemptRaises(env, s, steps[0]) ==> t.end in {Crashed, Quarantined})
      && (t.end == Quarantined ==> AttemptRaises(env, s, steps[0]))
  {
    assert Tidy(Tick(s)) && Tidy(Pause(Tick(s), steps).s) by { hide DistinctIds; }
    hide PrepareStep, Abandon, QuarantinedLast, DistinctIds, StepRaises;
    TidyAbandon(env, s, Tick(s));
    PrepareStepSafe(env, Tick(s), steps[0]);
    var t := PrepareStep(env, Tick(s), steps[0]);
    if t.end != Proceed {
      SafeEndFrom(s, Tick(s), t);
    }
  }

  /**
   In any environment, from a saga whose records are all committed and remembered: an execution reported
   as rolled back has settled every record; one in which a call raised ends quarantined, unless the
   process dies on the way, and only such a one does; quarantine leaves the effect AMBIGUOUS, the
   durable status COMPENSATION_FAILED and a dead letter, though memory may say ROLLED_BACK; and
   no checkpoint ever sees ROLLED_BACK written before its time.
   */
  lemma {:induction false} ExecutionNeverFalselyClaims<W>(env: Env<W>, s: Sys<W>, steps: seq<SagaStep>)
    requires Tidy(s)
    ensures s.saga.Some? && SafeEnd(s, ExecuteSteps(env, s, steps))
    ensures SomeCallRaises(env, s, steps) ==> ExecuteSteps(env, s, steps).end in {Crashed, Quarantined}
    ensures ExecuteSteps(env, s, steps).end == Quarantined ==> SomeCallRaises(env, s, steps)
    decreases |steps|
  {
    assert s.saga.Some?;
    if steps == [] {
      assert Tidy(ExecuteSteps(env, s, steps).s) by { hide DistinctIds; }
    } else {
      hide Tidy, AttemptStep, QuarantinedLast, AttemptRaises;
      if AlreadyCommitted(s.ledger, steps[0].idempotencyKey) {
        ExecutionNeverFalselyClaims(env, s, steps[1..]);
      } else {
        AttemptStepSafe(env, s, steps);
        var t := AttemptStep(env, s, steps);
        if t.end == Proceed {
          ExecutionNeverFalselyClaims(env, t.s, steps[1..]);
          SafeEndFrom(s, t.s, ExecuteSteps(env, t.s, steps[1..]));
        }
      }
    }
  }
}
