/** Recovery with a truthful resolver and reliable compensations leads back to the initial world. */
module RecoveryShape {
  import opened Journal
  import opened Environment
  import opened CoordinatorSpec
  import opened Restoration
  import opened Refusal
  import opened ForwardShape

  /** One step of recovery on the record at position k, from s to where t ends. */
  ghost predicate Recovering<W(!new)>(env: Env<W>, s: Sys<W>, t: Turn<W>, w0: W, k: nat) {
    && t.end in {Proceed, Crashed}
    && Shape(env, t.s, w0, k)
    && OnlyChanged(s, t.s, k)
    && SameMeta(s, t.s)
    && (t.end == Proceed ==> Settled(t.s.ledger.entries[k].state))
  }

  lemma RecoveringFrom<W(!new)>(env: Env<W>, s: Sys<W>, s1: Sys<W>, t: Turn<W>, w0: W, k: nat)
    requires Recovering(env, s1, t, w0, k) && OnlyChanged(s, s1, k) && SameMeta(s, s1)
    ensures Recovering(env, s, t, w0, k)
  {
    hide Shape;
  }

  lemma InvertibleAfter<W(!new)>(env: Env<W>, s: Sys<W>, s': Sys<W>, k: nat)
    requires InvertibleEntries(env, s.ledger.entries) && OnlyChanged(s, s', k)
    ensures InvertibleEntries(env, s'.ledger.entries)
  {
    hide Invertible;
  }

  lemma RecoveryMoveShape<W(!new)>(env: Env<W>, s: Sys<W>, w0: W, k: nat, site: Site)
    requires Shape(env, s, w0, k) && k < |s.ledger.entries|
    requires s.ledger.entries[k].state in Expected(site)
    requires InFlight(s, s.ledger.entries[k].(state := Target(site)))
    ensures var t := RecoveryMove(s, s.ledger.entries[k].stepId, site);
      && t.end == Proceed && Shape(env, t.s, w0, k) && OnlyChanged(s, t.s, k) && SameMeta(s, t.s)
      && t.s.ledger.entries[k].state == Target(site)
      && t.s.runs == s.runs && t.s.undos == s.undos && t.s.world == s.world && t.s.clock == s.clock
  {
    hide Shape, MoveAt;
    RecordMove(env, s, w0, k, site, "");
    BookkeepingMove(s, s.ledger.entries[k].stepId, site);
  }

  lemma BookkeepingMove<W>(s: Sys<W>, stepId: string, site: Site)
    ensures var moved := MoveAt(s.ledger, stepId, site);
      moved.Some? ==> SameMeta(s, s.(ledger := moved.value)) && moved.value.published == s.ledger.published
  {
  }

  /** Undoing an effect that is in force, its record being COMPENSATING. */
  lemma RecoveryCompensationShape<W(!new)>(env: Env<W>, s: Sys<W>, w0: W, k: nat, e: Entry)
    requires Shape(env, s, w0, k) && k < |s.ledger.entries|
    requires InvertibleEntries(env, s.ledger.entries) && ReliableUndo(env)
    requires s.ledger.entries[k].state == EffectState.Compensating && InForce(s, s.ledger.entries[k].stepId)
    requires e.stepId == s.ledger.entries[k].stepId && e.compensation == s.ledger.entries[k].compensation
    ensures Recovering(env, s, RecoveryCompensation(env, s, e), w0, k)
  {
    hide Shape, ExecuteCompensation, FailRecoveryCompensation, MoveAt;
    ShapeCore(env, s, Tick(s), w0, k);
    if !CrashesHere(env, s) {
      UndoCall(env, Tick(s), w0, k);
      var a := ExecuteCompensation(env, Tick(s), e.stepId, e.compensation);
      ShapeCore(env, a.s, Tick(a.s), w0, k);
      if !CrashesHere(env, a.s) {
        RecordMove(env, Tick(a.s), w0, k, RecordCompensated, "");
        BookkeepingMove(Tick(a.s), e.stepId, RecordCompensated);
      }
    }
  }

  lemma BeginRecoveryShape<W(!new)>(env: Env<W>, s: Sys<W>, w0: W, k: nat, e: Entry)
    requires Shape(env, s, w0, k) && k < |s.ledger.entries|
    requires InvertibleEntries(env, s.ledger.entries) && ReliableUndo(env)
    requires s.ledger.entries[k].state in {EffectState.Applied, EffectState.Committed}
    requires e.stepId == s.ledger.entries[k].stepId && e.compensation == s.ledger.entries[k].compensation
    ensures Recovering(env, s, BeginRecoveryCompensation(env, s, e), w0, k)
  {
    InForceAt(env, s, w0, k);
    hide Shape, RecoveryMove, RecoveryCompensation, ReliableUndo, Invertible;
    RecoveryMoveShape(env, s, w0, k, BeginCompensation);
    var s1 := RecoveryMove(s, e.stepId, BeginCompensation).s;
    InvertibleAfter(env, s, s1, k);
    RecoveryCompensationShape(env, s1, w0, k, e);
    RecoveringFrom(env, s, s1, RecoveryCompensation(env, s1, e), w0, k);
  }

  /** An interrupted forward call: the resolver tells whether there is something to undo. */
  lemma RecoverForwardShape<W(!new)>(env: Env<W>, s: Sys<W>, w0: W, k: nat)
    requires Shape(env, s, w0, k) && k < |s.ledger.entries|
    requires InvertibleEntries(env, s.ledger.entries) && ReliableUndo(env) && TruthfulResolver(env)
    requires s.ledger.entries[k].state == EffectState.Executing
    ensures Recovering(env, s, RecoverForward(env, s, s.ledger.entries[k]), w0, k)
  {
    InForceAt(env, s, w0, k);
    hide Shape, RecoveryMove, BeginRecoveryCompensation, QuarantineForward, ReliableUndo, Invertible;
    var e, s1 := s.ledger.entries[k], Tick(s);
    ShapeCore(env, s, s1, w0, k);
    TruthIsUnderstood(env, s.clock, InForce(s, e.stepId));
    assert ResolveForwardEffect(env, s, e) ==
      Resolved(if InForce(s, e.stepId) then SaysApplied else SaysNotApplied, s1);
    if InForce(s, e.stepId) {
      RecoveryMoveShape(env, s1, w0, k, ConfirmApplied);
      var s2 := RecoveryMove(s1, e.stepId, ConfirmApplied).s;
      InvertibleAfter(env, s, s2, k);
      BeginRecoveryShape(env, s2, w0, k, e);
      RecoveringFrom(env, s, s2, BeginRecoveryCompensation(env, s2, e), w0, k);
    } else {
      RecoveryMoveShape(env, s1, w0, k, AbortUnapplied);
    }
  }

  /** An interrupted compensation: the resolver tells whether it still has to happen. */
  lemma RecoverUndoShape<W(!new)>(env: Env<W>, s: Sys<W>, w0: W, k: nat)
    requires Shape(env, s, w0, k) && k < |s.ledger.entries|
    requires InvertibleEntries(env, s.ledger.entries) && ReliableUndo(env) && TruthfulResolver(env)
    requires s.ledger.entries[k].state == EffectState.Compensating
    ensures Recovering(env, s, RecoverUndo(env, s, s.ledger.entries[k]), w0, k)
  {
    hide Shape, RecoveryMove, RecoveryCompensation, FailRecoveryCompensation, ReliableUndo, Invertible;
    var e, s1 := s.ledger.entries[k], Tick(s);
    ShapeCore(env, s, s1, w0, k);
    TruthIsUnderstood(env, s.clock, !InForce(s, e.stepId));
    assert ResolveCompensation(env, s, e) ==
      Resolved(if InForce(s, e.stepId) then SaysNotApplied else SaysApplied, s1);
    if InForce(s, e.stepId) {
      RecoveryCompensationShape(env, s1, w0, k, e);
    } else {
      RecoveryMoveShape(env, s1, w0, k, RecordCompensated);
    }
  }

  lemma RecoverEffectShape<W(!new)>(env: Env<W>, s: Sys<W>, w0: W, k: nat)
    requires Shape(env, s, w0, k) && k < |s.ledger.entries|
    requires InvertibleEntries(env, s.ledger.entries) && ReliableUndo(env) && TruthfulResolver(env)
    ensures Recovering(env, s, RecoverEffect(env, s, s.ledger.entries[k]), w0, k)
  {
    InForceAt(env, s, w0, k);
    hide Shape, RecoveryMove, BeginRecoveryCompensation, RecoverForward, RecoverUndo, ReliableUndo, Invertible,
      TruthfulResolver;
    match s.ledger.entries[k].state
    case Executing => RecoverForwardShape(env, s, w0, k);
    case Compensating => RecoverUndoShape(env, s, w0, k);
    case Prepared => RecoveryMoveShape(env, s, w0, k, AbortPrepared);
    case Applied | Committed => BeginRecoveryShape(env, s, w0, k, s.ledger.entries[k]);
    case _ =>
  }

  /** With everything after position i settled, either i is settled too or the record in flight may be taken to be i. */
  lemma AtPosition<W>(env: Env<W>, s: Sys<W>, w0: W, k: nat, i: nat)
    requires Shape(env, s, w0, k) && i < |s.ledger.entries|
    requires forall j | i < j < |s.ledger.entries| :: Settled(s.ledger.entries[j].state)
    ensures (k < i && Settled(s.ledger.entries[i].state)) || Shape(env, s, w0, i)
  {
    CommittedBeyond(s.ledger.entries, k, i);
    if i < k {
      ShapeStepBack(env, s, w0, k);
    }
  }

  lemma CommittedBeyond(entries: seq<Entry>, k: nat, i: nat)
    ensures i + 1 < k <= |entries| && (forall j | 0 <= j < k :: entries[j].state == EffectState.Committed)
      ==> exists j :: i < j < |entries| && !Settled(entries[j].state)
  {
    if i + 1 < k <= |entries| && entries[i + 1].state == EffectState.Committed {
      assert !Settled(entries[i + 1].state);
    }
  }

  /** Recovery of the first m records of the snapshot, the others being settled. */
  lemma {:induction false} RecoverEffectsShape<W(!new)>(
    env: Env<W>, s: Sys<W>, w0: W, k: nat, effects: seq<Entry>)
    requires Shape(env, s, w0, k)
    requires InvertibleEntries(env, s.ledger.entries) && ReliableUndo(env) && TruthfulResolver(env)
    requires |effects| <= |s.ledger.entries| && effects == s.ledger.entries[..|effects|]
    requires forall j | |effects| <= j < |s.ledger.entries| :: Settled(s.ledger.entries[j].state)
    ensures var t := RecoverEffects(env, s, effects);
      && t.end in {Proceed, Crashed}
      && SameMeta(s, t.s)
      && (t.end == Proceed ==> Undone(t.s, w0))
      && (t.end == Crashed ==> Shaped(env, t.s, w0) && InvertibleEntries(env, t.s.ledger.entries))
    decreases |effects|
  {
    hide Shape, RecoverEffect, ReliableUndo, TruthfulResolver, Invertible;
    if effects == [] {
      SettledIsUndone(env, s, w0, k);
    } else {
      var i := |effects| - 1;
      AtPosition(env, s, w0, k, i);
      assert effects[i] == s.ledger.entries[i];
      if !Shape(env, s, w0, i) {
        SettledIsSkipped(env, s, effects[i]);
        RecoverEffectsShape(env, s, w0, k, effects[..i]);
      } else {
        RecoverEffectShape(env, s, w0, i);
        var t := RecoverEffect(env, s, effects[i]);
        InvertibleAfter(env, s, t.s, i);
        if t.end == Proceed {
          assert t.s.ledger.entries[..i] == effects[..i];
          RecoverEffectsShape(env, t.s, w0, i, effects[..i]);
        }
      }
    }
  }

  /** Recovery after a crash in the rollback that follows a refusal: the refused call is resolved first. */
  lemma RecoverWaitingShape<W(!new)>(env: Env<W>, s: Sys<W>, w0: W)
    requires Waiting(env, s, w0)
    requires InvertibleEntries(env, s.ledger.entries) && ReliableUndo(env) && TruthfulResolver(env)
    ensures var t := RecoverEffects(env, s, s.ledger.entries);
      && t.end in {Proceed, Crashed}
      && SameMeta(s, t.s)
      && (t.end == Proceed ==> Undone(t.s, w0))
      && (t.end == Crashed ==> Shaped(env, t.s, w0) && InvertibleEntries(env, t.s.ledger.entries))
  {
    hide Shape, ReliableUndo, TruthfulResolver, Undone, InvertibleEntries, RecoverEffect;
    var n := |s.ledger.entries| - 1;
    var k: nat :| Shape(env, Parked(s), w0, k);
    ResolveWaiting(env, s, w0, k);
    var t := RecoverEffect(env, s, s.ledger.entries[n]);
    InvertibleParked(env, s, t.s);
    assert t.s.ledger.entries[..n] == s.ledger.entries[..n];
    RecoverEffectsShape(env, t.s, w0, k, s.ledger.entries[..n]);
  }

  lemma InvertibleParked<W(!new)>(env: Env<W>, s: Sys<W>, s': Sys<W>)
    requires s.ledger.entries != [] && s'.ledger.entries == Parked(s).ledger.entries
    requires InvertibleEntries(env, s.ledger.entries)
    ensures InvertibleEntries(env, s'.ledger.entries)
  {
    hide Invertible;
  }

  lemma ResolveWaiting<W(!new)>(env: Env<W>, s: Sys<W>, w0: W, k: nat)
    requires Waiting(env, s, w0) && TruthfulResolver(env) && Shape(env, Parked(s), w0, k)
    ensures var t := RecoverEffect(env, s, s.ledger.entries[|s.ledger.entries| - 1]);
      && t.end == Proceed && SameMeta(s, t.s)
      && t.s.ledger.entries == Parked(s).ledger.entries
      && Shape(env, t.s, w0, k)
  {
    hide Shape, ResolveForwardEffect, MoveAt, DistinctIds;
    var n, e := |s.ledger.entries| - 1, s.ledger.entries[|s.ledger.entries| - 1];
    assert DistinctIds(s.ledger.entries) by { ShapeIds(env, Parked(s), w0, k); ParkedIds(s); }
    AnswerWaiting(env, s, w0);
    MoveAtIs(s.ledger, n, AbortUnapplied, "");
    ShapeCore(env, Parked(s), RecoverEffect(env, s, e).s, w0, k);
  }

  lemma AnswerWaiting<W(!new)>(env: Env<W>, s: Sys<W>, w0: W)
    requires Waiting(env, s, w0) && TruthfulResolver(env)
    ensures ResolveForwardEffect(env, s, s.ledger.entries[|s.ledger.entries| - 1]) == Resolved(SaysNotApplied, Tick(s))
  {
    hide Shaped, ResolverReply;
    TruthIsUnderstood(env, s.clock, false);
  }

  lemma ParkedIds<W>(s: Sys<W>)
    requires s.ledger.entries != []
    ensures DistinctIds(Parked(s).ledger.entries) ==> DistinctIds(s.ledger.entries)
  {
    assert forall i | 0 <= i < |s.ledger.entries| :: Parked(s).ledger.entries[i].stepId == s.ledger.entries[i].stepId;
  }

  lemma SettledIsSkipped<W>(env: Env<W>, s: Sys<W>, e: Entry)
    requires Settled(e.state)
    ensures RecoverEffect(env, s, e) == Turn(s, Proceed)
  {
  }
}
