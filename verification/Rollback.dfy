/**
 What every rollback, quarantine and recovery leaves alone, in any environment: nothing is called
 forward, no key is published, and no record becomes EXECUTING.
 */
module Rollback {
  import opened Prelude
  import opened Sagas
  import opened Journal
  import opened Environment
  import opened CoordinatorSpec

  /** The record is the same but for its state, and is not newly EXECUTING. */
  predicate QuietEntry(a: Entry, b: Entry) {
    && b == a.(state := b.state, error := b.error)
    && (b.state == EffectState.Executing ==> a.state == EffectState.Executing)
  }

  ghost predicate QuietLedger(l: Ledger, l': Ledger) {
    && l'.published == l.published
    && |l'.entries| == |l.entries|
    && forall i | 0 <= i < |l.entries| :: QuietEntry(l.entries[i], l'.entries[i])
  }

  ghost predicate Quiet<W>(s: Sys<W>, s': Sys<W>) {
    && QuietLedger(s.ledger, s'.ledger)
    && s'.runs == s.runs
    && (forall id :: s.undos[id] <= s'.undos[id])
    && (s'.saga.Some? <==> s.saga.Some?)
    && Completed(s') == Completed(s)
  }

  lemma QuietTrans<W>(s: Sys<W>, t: Sys<W>, u: Sys<W>)
    requires Quiet(s, t) && Quiet(t, u)
    ensures Quiet(s, u)
  {
    assert forall i | 0 <= i < |s.ledger.entries| ::
      QuietEntry(s.ledger.entries[i], t.ledger.entries[i]) && QuietEntry(t.ledger.entries[i], u.ledger.entries[i]);
  }

  /** Every move but the claim is quiet. */
  lemma MoveQuiet(l: Ledger, stepId: string, site: Site, error: string)
    requires site != Claim
    ensures QuietLedger(l, MoveAt(l, stepId, site, error).GetOr(l))
  {
  }

  lemma HandleQuiet<W>(s: Sys<W>, step: SagaStep)
    ensures Quiet(s, HandleCompensationFailure(s, step).s)
  {
    hide MoveAt, QuietEntry;
    var l := WriteStatus(s.ledger, SagaStatus.CompensationFailed);
    MoveQuiet(l, step.stepId, FailCompensation, UNDO_FAILED);
  }

  lemma UndoQuiet<W>(env: Env<W>, s: Sys<W>, stepId: string, compensation: ActionPayload)
    ensures Quiet(s, Tick(s)) && Quiet(s, ExecuteCompensation(env, s, stepId, compensation).s)
  {
  }

  lemma RecordQuiet<W>(s: Sys<W>, stepId: string, site: Site, error: string)
    requires site != Claim
    ensures Quiet(s, s.(ledger := MoveAt(s.ledger, stepId, site, error).GetOr(s.ledger)))
  {
    hide MoveAt, QuietLedger;
    MoveQuiet(s.ledger, stepId, site, error);
  }

  lemma CallQuiet<W>(env: Env<W>, s: Sys<W>, step: SagaStep)
    ensures Quiet(s, CompensationCall(env, s, step).s)
  {
    hide MoveAt, Quiet, ExecuteCompensation, HandleCompensationFailure, CrashesHere;
    var c := step.compensation;
    UndoQuiet(env, s, step.stepId, c);
    UndoQuiet(env, Tick(s), step.stepId, c);
    var a := ExecuteCompensation(env, Tick(s), step.stepId, c);
    QuietTrans(s, Tick(s), a.s);
    UndoQuiet(env, a.s, step.stepId, c);
    QuietTrans(s, a.s, Tick(a.s));
    HandleQuiet(a.s, step);
    QuietTrans(s, a.s, HandleCompensationFailure(a.s, step).s);
    HandleQuiet(Tick(a.s), step);
    QuietTrans(s, Tick(a.s), HandleCompensationFailure(Tick(a.s), step).s);
    var moved := MoveAt(a.s.ledger, step.stepId, RecordCompensated);
    if moved.Some? {
      RecordQuiet(Tick(a.s), step.stepId, RecordCompensated, "");
      var s' := Tick(a.s).(ledger := moved.value);
      QuietTrans(s, Tick(a.s), s');
      UndoQuiet(env, s', step.stepId, c);
      QuietTrans(s, s', Tick(s'));
    }
  }

  lemma CompensateStepQuiet<W>(env: Env<W>, s: Sys<W>, step: SagaStep)
    ensures Quiet(s, CompensateStep(env, s, step).s)
  {
    hide MoveAt, Quiet, CompensationCall, HandleCompensationFailure, IndexOf;
    HandleQuiet(s, step);
    CallQuiet(env, s, step);
    var moved := MoveAt(s.ledger, step.stepId, BeginCompensation);
    if moved.Some? {
      RecordQuiet(s, step.stepId, BeginCompensation, "");
      var s' := s.(ledger := moved.value);
      CallQuiet(env, s', step);
      QuietTrans(s, s', CompensationCall(env, s', step).s);
    }
  }

  lemma {:induction false} CompensateAllQuiet<W>(env: Env<W>, s: Sys<W>, completed: seq<SagaStep>)
    ensures Quiet(s, CompensateAll(env, s, completed).s)
    decreases |completed|
  {
    if completed == [] {
      assert QuietLedger(s.ledger, CompensateAll(env, s, completed).s.ledger);
    } else {
      hide Quiet, CompensateStep;
      var step := completed[|completed| - 1];
      CompensateStepQuiet(env, s, step);
      var t := CompensateStep(env, s, step);
      if t.end == Proceed {
        CompensateAllQuiet(env, t.s, completed[..|completed| - 1]);
        QuietTrans(s, t.s, CompensateAll(env, t.s, completed[..|completed| - 1]).s);
      }
    }
  }

  /** A rollback starts no call, publishes no key and forgets no completed step. */
  lemma AbandonQuiet<W>(env: Env<W>, s: Sys<W>)
    ensures Quiet(s, Abandon(env, s).s)
  {
    var s' := WithStatus(s, SagaStatus.Compensating);
    assert Quiet(s, s');
    hide Quiet, CompensateAll;
    CompensateAllQuiet(env, s', Completed(s));
    QuietTrans(s, s', CompensateAll(env, s', Completed(s)).s);
  }

  /** So does the quarantine of a raised call. */
  lemma AbandonAmbiguousQuiet<W>(env: Env<W>, s: Sys<W>, step: SagaStep)
    ensures Quiet(s, AbandonAmbiguous(env, s, step).s)
  {
    hide Abandon, MoveAt, QuietEntry;
    AbandonQuiet(env, s);
    var t := Abandon(env, s);
    MoveQuiet(t.s.ledger, step.stepId, RecordRaised, CALL_RAISED);
    var u := AbandonAmbiguous(env, s, step);
    if t.end != Crashed {
      assert Quiet(t.s, u.s);
      QuietTrans(s, t.s, u.s);
    }
  }

  // ── Recovery ──────────────────────────────────────────────────────

  /** Recovery may repeat a call on an idempotent receiver; its journal is quiet all the same. */
  lemma ResolveQuiet<W>(env: Env<W>, s: Sys<W>, e: Entry)
    ensures ResolveForwardEffect(env, s, e).s.ledger == s.ledger
    ensures ResolveCompensation(env, s, e).s.ledger == s.ledger
  {
  }

  lemma QuietLedgerTrans(l: Ledger, m: Ledger, n: Ledger)
    requires QuietLedger(l, m) && QuietLedger(m, n)
    ensures QuietLedger(l, n)
  {
    assert forall i | 0 <= i < |l.entries| ::
      QuietEntry(l.entries[i], m.entries[i]) && QuietEntry(m.entries[i], n.entries[i]);
  }

  lemma LettersQuiet(l: Ledger, m: Ledger, stepName: string, error: string)
    requires QuietLedger(l, m)
    ensures QuietLedger(l, DeadLetterRecovery(m, stepName, error))
  {
  }

  lemma SameQuiet(l: Ledger)
    ensures QuietLedger(l, l)
  {
  }

  lemma RecoveryCompensationQuiet<W>(env: Env<W>, s: Sys<W>, e: Entry)
    ensures QuietLedger(s.ledger, RecoveryCompensation(env, s, e).s.ledger)
    ensures forall error :: QuietLedger(s.ledger, FailRecoveryCompensation(s, e, error).s.ledger)
  {
    hide MoveAt, QuietLedger;
    SameQuiet(s.ledger);
    forall x: Sys<W>, error | x.ledger == s.ledger
      ensures QuietLedger(s.ledger, FailRecoveryCompensation(x, e, error).s.ledger)
    {
      MoveQuiet(s.ledger, e.stepId, FailCompensation, error);
      LettersQuiet(s.ledger, MoveAt(s.ledger, e.stepId, FailCompensation, error).GetOr(s.ledger), e.stepName, error);
    }
    MoveQuiet(s.ledger, e.stepId, RecordCompensated, "");
    assert ExecuteCompensation(env, Tick(s), e.stepId, e.compensation).s.ledger == s.ledger;
    hide ExecuteCompensation, FailRecoveryCompensation;
  }

  lemma BeginRecoveryQuiet<W>(env: Env<W>, s: Sys<W>, e: Entry)
    ensures QuietLedger(s.ledger, BeginRecoveryCompensation(env, s, e).s.ledger)
  {
    hide MoveAt, QuietLedger, RecoveryCompensation;
    SameQuiet(s.ledger);
    MoveQuiet(s.ledger, e.stepId, BeginCompensation, "");
    var t := RecoveryMove(s, e.stepId, BeginCompensation);
    RecoveryCompensationQuiet(env, t.s, e);
    QuietLedgerTrans(s.ledger, t.s.ledger, RecoveryCompensation(env, t.s, e).s.ledger);
  }

  lemma RecoverEffectQuiet<W>(env: Env<W>, s: Sys<W>, e: Entry)
    ensures QuietLedger(s.ledger, RecoverEffect(env, s, e).s.ledger)
  {
    hide MoveAt, QuietLedger, RecoveryCompensation, BeginRecoveryCompensation, FailRecoveryCompensation,
      ResolveForwardEffect, ResolveCompensation;
    SameQuiet(s.ledger);
    ResolveQuiet(env, s, e);
    var f, c := ResolveForwardEffect(env, s, e).s, ResolveCompensation(env, s, e).s;
    forall error
      ensures QuietLedger(s.ledger, DeadLetterRecovery(s.ledger, e.stepName, error))
      ensures QuietLedger(s.ledger, QuarantineForward(f, e, error).s.ledger)
    {
      LettersQuiet(s.ledger, s.ledger, e.stepName, error);
      MoveQuiet(s.ledger, e.stepId, MarkAmbiguous, error);
      LettersQuiet(s.ledger, MoveAt(s.ledger, e.stepId, MarkAmbiguous, error).GetOr(s.ledger), e.stepName, error);
    }
    forall site | site != Claim
      ensures QuietLedger(s.ledger, MoveAt(s.ledger, e.stepId, site).GetOr(s.ledger))
    {
      MoveQuiet(s.ledger, e.stepId, site, "");
    }
    var applied := RecoveryMove(f, e.stepId, ConfirmApplied);
    assert QuietLedger(s.ledger, applied.s.ledger);
    BeginRecoveryQuiet(env, applied.s, e);
    QuietLedgerTrans(s.ledger, applied.s.ledger, BeginRecoveryCompensation(env, applied.s, e).s.ledger);
    BeginRecoveryQuiet(env, s, e);
    RecoveryCompensationQuiet(env, c, e);
    hide QuarantineForward, DeadLetterRecovery;
  }

  lemma {:induction false} RecoverEffectsQuiet<W>(env: Env<W>, s: Sys<W>, effects: seq<Entry>)
    ensures QuietLedger(s.ledger, RecoverEffects(env, s, effects).s.ledger)
    decreases |effects|
  {
    hide QuietLedger, RecoverEffect;
    SameQuiet(s.ledger);
    if effects != [] {
      var e := effects[|effects| - 1];
      RecoverEffectQuiet(env, s, e);
      var t := RecoverEffect(env, s, e);
      if t.end == Proceed {
        RecoverEffectsQuiet(env, t.s, effects[..|effects| - 1]);
        QuietLedgerTrans(s.ledger, t.s.ledger, RecoverEffects(env, t.s, effects[..|effects| - 1]).s.ledger);
      }
    }
  }

  /** Recovery publishes no key and makes no record EXECUTING, whatever the environment answers. */
  lemma RecoverQuiet<W>(env: Env<W>, s: Sys<W>)
    ensures QuietLedger(s.ledger, Recover(env, s).s.ledger)
  {
    SameQuiet(s.ledger);
    hide RecoverEffects;
    RecoverEffectsQuiet(env, s.(saga := None), s.ledger.entries);
  }
}
