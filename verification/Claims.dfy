/**
 Published keys and interrupted calls. Recovery takes a published key for the proof that the call
 of an EXECUTING record took effect. This says when that proof is worth something.
 */
module Claims {
  import opened Prelude
  import opened Sagas
  import opened Journal
  import opened Environment
  import opened CoordinatorSpec
  import opened Runs
  import opened Lifecycle
  import opened Restoration
  import opened Rollback
  import opened Refusal
  import opened ForwardShape
  import opened CrashRecovery
  import opened Resubmission

  // ── Keys of interrupted calls ─────────────────────────────────────

  /** No interrupted call carries a key that recovery would take as proof of its effect. */
  ghost predicate NoStaleClaim(l: Ledger) {
    forall i | 0 <= i < |l.entries| && l.entries[i].state == EffectState.Executing ::
      !AlreadyCommitted(l, l.entries[i].idempotencyKey)
  }

  /** Another record, of an interrupted call, carries the key of this step. */
  ghost predicate Clashes(l: Ledger, step: SagaStep) {
    Keyed(step.idempotencyKey) &&
    exists i :: 0 <= i < |l.entries| && l.entries[i].state == EffectState.Executing
      && l.entries[i].idempotencyKey == step.idempotencyKey && l.entries[i].stepId != step.stepId
  }

  ghost predicate ClashFree(l: Ledger, steps: seq<SagaStep>) {
    forall i | 0 <= i < |steps| :: !Clashes(l, steps[i])
  }

  // ── One call, in any environment ──────────────────────────────────

  /** No other record became EXECUTING, and ids stayed distinct. */
  ghost predicate NoNewClaims(l: Ledger, l': Ledger) {
    && DistinctIds(l'.entries)
    && |l.entries| <= |l'.entries|
    && forall i | 0 <= i < |l'.entries| && l'.entries[i].state == EffectState.Executing ::
         i < |l.entries| && l.entries[i].state == EffectState.Executing
         && l'.entries[i].stepId == l.entries[i].stepId && l'.entries[i].idempotencyKey == l.entries[i].idempotencyKey
  }

  lemma QuietKeeps(l: Ledger, l': Ledger)
    requires QuietLedger(l, l') && DistinctIds(l.entries)
    ensures NoNewClaims(l, l') && (NoStaleClaim(l) ==> NoStaleClaim(l'))
  {
    assert forall i | 0 <= i < |l.entries| :: QuietEntry(l.entries[i], l'.entries[i]);
  }

  lemma ClashFreeLater(l: Ledger, l': Ledger, step: SagaStep)
    requires NoNewClaims(l, l') && !Clashes(l, step)
    ensures !Clashes(l', step)
  {
  }

  /** During the call of a step: the claims are the old ones and that of the step, whose key is unpublished. */
  ghost predicate Held(l0: Ledger, l: Ledger, step: SagaStep) {
    && DistinctIds(l.entries) && NoStaleClaim(l)
    && |l0.entries| <= |l.entries|
    && (forall i | 0 <= i < |l.entries| && l.entries[i].state == EffectState.Executing ::
          l.entries[i].stepId == step.stepId
          || (i < |l0.entries| && l0.entries[i].state == EffectState.Executing
              && l.entries[i].stepId == l0.entries[i].stepId && l.entries[i].idempotencyKey == l0.entries[i].idempotencyKey))
    && (forall i | 0 <= i < |l.entries| && l.entries[i].stepId == step.stepId ::
          l.entries[i].idempotencyKey == step.idempotencyKey)
  }

  lemma PrepareHolds(l: Ledger, step: SagaStep)
    requires DistinctIds(l.entries) && NoStaleClaim(l) && !AlreadyCommitted(l, step.idempotencyKey)
    ensures var prepared := PrepareEffect(l, step);
      prepared.Some? ==> Held(l, prepared.value, step)
                         && prepared.value.published == l.published
  {
    var prepared := PrepareEffect(l, step);
    if prepared.Some? && IndexOf(l.entries, step.stepId) < |l.entries| {
      IndexOfUnique(l.entries, IndexOf(l.entries, step.stepId));
    }
  }

  lemma ClaimHolds(l0: Ledger, l: Ledger, step: SagaStep)
    requires Held(l0, l, step) && !AlreadyCommitted(l, step.idempotencyKey)
    ensures var claimed := MoveAt(l, step.stepId, Claim);
      claimed.Some? ==> Held(l0, claimed.value, step)
  {
  }

  lemma QuietHolds(l0: Ledger, l: Ledger, l': Ledger, step: SagaStep)
    requires Held(l0, l, step) && QuietLedger(l, l')
    ensures Held(l0, l', step)
  {
    assert forall i | 0 <= i < |l.entries| :: QuietEntry(l.entries[i], l'.entries[i]);
  }

  /** The commit publishes the key of the step, which no old claim carries. */
  lemma CommitHolds(l0: Ledger, l: Ledger, step: SagaStep)
    requires Held(l0, l, step) && !Clashes(l0, step)
    ensures var committed := CommitEffect(l, step.stepId, step.idempotencyKey);
      committed.Some? ==> NoStaleClaim(committed.value) && NoNewClaims(l0, committed.value)
  {
    var i := IndexOf(l.entries, step.stepId);
    var committed := CommitEffect(l, step.stepId, step.idempotencyKey);
    if committed.Some? {
      var l' := committed.value;
      assert forall j | 0 <= j < |l.entries| && j != i :: l'.entries[j] == l.entries[j] && l.entries[j].stepId != step.stepId;
    }
  }

  /** What a call may leave: no stale claim, and no new one when the loop goes on. */
  ghost predicate Kept<W>(l0: Ledger, t: Turn<W>) {
    NoStaleClaim(t.s.ledger) && (t.end == Proceed ==> NoNewClaims(l0, t.s.ledger))
  }

  lemma AbandonKeepsClaims<W>(env: Env<W>, s: Sys<W>, step: SagaStep, l0: Ledger)
    requires DistinctIds(s.ledger.entries) && NoStaleClaim(s.ledger)
    ensures Kept(l0, Abandon(env, s)) && Kept(l0, AbandonAmbiguous(env, s, step))
  {
    hide Abandon, QuietLedger, NoStaleClaim, NoNewClaims;
    AbandonQuiet(env, s);
    AbandonAmbiguousQuiet(env, s, step);
    QuietKeeps(s.ledger, Abandon(env, s).s.ledger);
    QuietKeeps(s.ledger, AbandonAmbiguous(env, s, step).s.ledger);
    AbandonNeverPauses(env, s);
  }

  lemma HeldFacts(l0: Ledger, l: Ledger, step: SagaStep)
    requires Held(l0, l, step)
    ensures DistinctIds(l.entries) && NoStaleClaim(l)
  {
  }

  lemma RecordKeepsClaims<W>(env: Env<W>, s: Sys<W>, step: SagaStep, l0: Ledger)
    requires s.saga.Some? && Held(l0, s.ledger, step) && !Clashes(l0, step)
    ensures Kept(l0, RecordStep(env, s, step))
  {
    hide MoveAt, CommitEffect, Abandon, AbandonAmbiguous, Held, NoStaleClaim, NoNewClaims, Clashes, QuietLedger, DistinctIds;
    HeldFacts(l0, s.ledger, step);
    AbandonKeepsClaims(env, s, step, l0);
    var applied := MoveAt(s.ledger, step.stepId, RecordApplied);
    if applied.Some? {
      MoveQuiet(s.ledger, step.stepId, RecordApplied, "");
      QuietHolds(l0, s.ledger, applied.value, step);
      HeldFacts(l0, applied.value, step);
      var s2 := AppendCompleted(Tick(s.(ledger := applied.value)), step);
      AbandonKeepsClaims(env, s2, step, l0);
      CommitHolds(l0, applied.value, step);
    }
  }

  lemma CallKeepsClaims<W>(env: Env<W>, s: Sys<W>, step: SagaStep, l0: Ledger)
    requires s.saga.Some? && Held(l0, s.ledger, step) && !Clashes(l0, step)
    ensures Kept(l0, CallStep(env, s, step))
  {
    hide MoveAt, RecordStep, Abandon, AbandonAmbiguous, Held, NoStaleClaim, NoNewClaims, Clashes, QuietLedger, DistinctIds;
    HeldFacts(l0, s.ledger, step);
    var a := Execute(env, Tick(s), step.stepId, step.action);
    assert a.s.ledger == s.ledger && a.s.saga == s.saga;
    hide Execute;
    AbandonKeepsClaims(env, a.s, step, l0);
    AbandonKeepsClaims(env, Tick(a.s), step, l0);
    RecordKeepsClaims(env, Tick(a.s), step, l0);
    var aborted := MoveAt(a.s.ledger, step.stepId, RejectCall, CALL_FAILED);
    if aborted.Some? {
      MoveQuiet(s.ledger, step.stepId, RejectCall, CALL_FAILED);
      QuietHolds(l0, s.ledger, aborted.value, step);
      HeldFacts(l0, aborted.value, step);
      AbandonKeepsClaims(env, Tick(a.s).(ledger := aborted.value), step, l0);
    }
  }

  /** A step whose key no other interrupted call carries leaves no stale claim, wherever it ends. */
  lemma PrepareKeepsClaims<W>(env: Env<W>, s: Sys<W>, step: SagaStep)
    requires s.saga.Some? && DistinctIds(s.ledger.entries) && NoStaleClaim(s.ledger)
    requires !AlreadyCommitted(s.ledger, step.idempotencyKey) && !Clashes(s.ledger, step)
    ensures Kept(s.ledger, PrepareStep(env, s, step))
  {
    hide MoveAt, PrepareEffect, CallStep, Abandon, Held, NoStaleClaim, NoNewClaims, Clashes, DistinctIds, AlreadyCommitted;
    AbandonKeepsClaims(env, s, step, s.ledger);
    PrepareHolds(s.ledger, step);
    var prepared := PrepareEffect(s.ledger, step);
    if prepared.Some? {
      var l := prepared.value;
      SameKeys(s.ledger, l);
      HeldFacts(s.ledger, l, step);
      var s1 := s.(ledger := l);
      AbandonKeepsClaims(env, Tick(s1), step, s.ledger);
      ClaimHolds(s.ledger, l, step);
      var claimed := MoveAt(l, step.stepId, Claim);
      if claimed.Some? {
        CallKeepsClaims(env, Tick(s1).(ledger := claimed.value), step, s.ledger);
      }
    }
  }

  lemma SameKeys(l: Ledger, l': Ledger)
    requires l'.published == l.published
    ensures forall key :: AlreadyCommitted(l', key) == AlreadyCommitted(l, key)
  {
  }

  lemma AttemptKeepsClaims<W>(env: Env<W>, s: Sys<W>, steps: seq<SagaStep>)
    requires s.saga.Some? && steps != [] && DistinctIds(s.ledger.entries) && NoStaleClaim(s.ledger)
    requires !AlreadyCommitted(s.ledger, steps[0].idempotencyKey) && !Clashes(s.ledger, steps[0])
    ensures Kept(s.ledger, AttemptStep(env, s, steps))
  {
    hide PrepareStep, Abandon, NoNewClaims, Clashes, DistinctIds, AlreadyCommitted;
    AbandonKeepsClaims(env, Tick(s), steps[0], s.ledger);
    PrepareKeepsClaims(env, Tick(s), steps[0]);
    assert NoStaleClaim(Pause(Tick(s), steps).s.ledger) by { SameRecordsSameClaims(s.ledger, Pause(Tick(s), steps).s.ledger); }
    hide NoStaleClaim;
  }

  lemma SameRecordsSameClaims(l: Ledger, l': Ledger)
    requires l'.entries == l.entries && l'.published == l.published
    ensures NoStaleClaim(l') == NoStaleClaim(l)
    ensures forall step :: Clashes(l', step) == Clashes(l, step)
  {
    assert forall key :: AlreadyCommitted(l', key) == AlreadyCommitted(l, key);
  }

  /** A call none of whose steps clashes leaves no stale claim, in any environment, wherever it ends. */
  lemma {:induction false} ExecuteKeepsClaims<W>(env: Env<W>, s: Sys<W>, steps: seq<SagaStep>)
    requires s.saga.Some? && DistinctIds(s.ledger.entries) && NoStaleClaim(s.ledger) && ClashFree(s.ledger, steps)
    ensures NoStaleClaim(ExecuteSteps(env, s, steps).s.ledger)
    decreases |steps|
  {
    hide AttemptStep, NoStaleClaim, NoNewClaims, Clashes, DistinctIds, AlreadyCommitted;
    if steps == [] {
      SameRecordsSameClaims(s.ledger, ExecuteSteps(env, s, steps).s.ledger);
    } else if AlreadyCommitted(s.ledger, steps[0].idempotencyKey) {
      ExecuteKeepsClaims(env, s, steps[1..]);
    } else {
      AttemptKeepsClaims(env, s, steps);
      var t := AttemptStep(env, s, steps);
      if t.end == Proceed {
        NoNewIds(s.ledger, t.s.ledger);
        forall i | 0 <= i < |steps[1..]|
          ensures !Clashes(t.s.ledger, steps[1..][i])
        {
          ClashFreeLater(s.ledger, t.s.ledger, steps[i + 1]);
        }
        ExecuteKeepsClaims(env, t.s, steps[1..]);
      }
    }
  }

  lemma NoNewIds(l: Ledger, l': Ledger)
    requires NoNewClaims(l, l')
    ensures DistinctIds(l'.entries)
  {
  }

  // ── Exactly when ──────────────────────────────────────────────────

  /** Nothing goes wrong. */
  function Smooth(): nat -> Choice {
    n => Choice(false, Admit, true, Succeed, Succeed, PLAIN_TRUTH)
  }

  /** When nothing goes wrong every step of the list is committed, or skipped by its key. */
  ghost predicate RunnableAll<W>(env: Env<W>, s: Sys<W>, steps: seq<SagaStep>)
    requires s.saga.Some?
    decreases |steps|
  {
    steps != [] ==>
      if AlreadyCommitted(s.ledger, steps[0].idempotencyKey) then RunnableAll(env, s, steps[1..])
      else
        && Runnable(env, s, steps[0])
        && RunnableAll(env, AttemptStep(env.(choice := Smooth()), s, steps).s, steps[1..])
  }

  function Published(l: Ledger, key: Option<string>): set<string> {
    if Keyed(key) then l.published + {key.value} else l.published
  }

  lemma SmoothRecord<W>(env: Env<W>, s: Sys<W>, step: SagaStep, past: seq<Entry>, e: Entry)
    requires s.saga.Some? && env.choice == Smooth()
    requires s.ledger.entries == past + [e] && IndexOf(s.ledger.entries, step.stepId) == |past|
    requires e == NewEntry(step).(state := EffectState.Executing)
    ensures var t := RecordStep(env, s, step);
      && t.end == Proceed
      && t.s.ledger.entries == past + [NewEntry(step).(state := EffectState.Committed)]
      && t.s.ledger.published == Published(s.ledger, step.idempotencyKey)
  {
    var n := |past|;
    var l1 := SetState(s.ledger, n, EffectState.Applied, "");
    assert MoveAt(s.ledger, step.stepId, RecordApplied) == Some(l1);
    IndexOfSameIds(s.ledger.entries, l1.entries, step.stepId);
    var l2 := SetState(l1, n, EffectState.Committed, "");
    assert l2.entries == past + [NewEntry(step).(state := EffectState.Committed)];
    var l3 := l2.(published := Published(s.ledger, step.idempotencyKey));
    assert CommitEffect(l1, step.stepId, step.idempotencyKey) == Some(l3);
    hide MoveAt, CommitEffect, IndexOf, AbandonAmbiguous, Abandon;
  }

  function WithNew(l: Ledger, step: SagaStep): Ledger {
    l.(entries := l.entries + [NewEntry(step)])
  }

  function WithClaim(l: Ledger, step: SagaStep): Ledger {
    SetState(WithNew(l, step), |l.entries|, EffectState.Executing, "")
  }

  /** Registering and claiming a new step. */
  lemma NewClaim(l: Ledger, step: SagaStep)
    requires IndexOf(l.entries, step.stepId) == |l.entries|
    ensures PrepareEffect(l, step) == Some(WithNew(l, step))
    ensures MoveAt(WithNew(l, step), step.stepId, Claim) == Some(WithClaim(l, step))
    ensures var l' := WithClaim(l, step);
      && l'.entries == l.entries + [NewEntry(step).(state := EffectState.Executing)]
      && IndexOf(l'.entries, step.stepId) == |l.entries|
      && l'.published == l.published
  {
    NewIsLast(l.entries, step);
    IndexOfSameIds(WithNew(l, step).entries, WithClaim(l, step).entries, step.stepId);
  }

  /** A step that may run, when nothing goes wrong. */
  lemma SmoothAttempt<W>(env: Env<W>, s: Sys<W>, steps: seq<SagaStep>)
    requires s.saga.Some? && steps != [] && Runnable(env, s, steps[0]) && env.choice == Smooth()
    ensures var t := AttemptStep(env, s, steps);
      && t.end == Proceed
      && t.s.ledger.entries == s.ledger.entries + [NewEntry(steps[0]).(state := EffectState.Committed)]
      && t.s.ledger.published == Published(s.ledger, steps[0].idempotencyKey)
  {
    var step, past := steps[0], s.ledger.entries;
    var e := NewEntry(step).(state := EffectState.Executing);
    NewClaim(s.ledger, step);
    var l, l1 := WithNew(s.ledger, step), WithClaim(s.ledger, step);
    hide PrepareEffect, MoveAt, RecordStep, Abandon, AbandonAmbiguous, IndexOf, WithNew, WithClaim, Published;
    var a := Execute(env, Tick(Tick(Tick(s))).(ledger := l1), step.stepId, step.action);
    assert a.reply == Succeeded && a.s.ledger == l1;
    SmoothRecord(env, Tick(a.s), step, past, e);
    assert Published(l1, step.idempotencyKey) == Published(s.ledger, step.idempotencyKey) by {
      SamePublishedKeys(s.ledger, l1, step.idempotencyKey);
    }
    SmoothCall(env, s, step, l, l1);
  }

  lemma NewIsLast(past: seq<Entry>, step: SagaStep)
    requires IndexOf(past, step.stepId) == |past|
    ensures IndexOf(past + [NewEntry(step)], step.stepId) == |past|
  {
    var entries := past + [NewEntry(step)];
    assert entries[|past|].stepId == step.stepId;
    assert forall i | 0 <= i < |past| :: entries[i] == past[i];
  }

  lemma SamePublishedKeys(l: Ledger, l': Ledger, key: Option<string>)
    requires l'.published == l.published
    ensures Published(l', key) == Published(l, key)
  {
  }

  lemma SmoothCall<W>(env: Env<W>, s: Sys<W>, step: SagaStep, l: Ledger, l1: Ledger)
    requires s.saga.Some? && env.choice == Smooth() && env.act(step.action, s.world).Some?
    requires PrepareEffect(s.ledger, step) == Some(l) && MoveAt(l, step.stepId, Claim) == Some(l1)
    ensures var a := Execute(env, Tick(Tick(Tick(s))).(ledger := l1), step.stepId, step.action);
      && a.s.saga == s.saga
      && PrepareStep(env, Tick(s), step) == RecordStep(env, Tick(a.s), step)
  {
    hide PrepareEffect, MoveAt, RecordStep, Abandon, AbandonAmbiguous;
  }

  /** A stale claim, or a clash that makes one, lasts through a run in which nothing goes wrong. */
  lemma {:induction false} ClashGoesStale<W>(env: Env<W>, s: Sys<W>, steps: seq<SagaStep>)
    requires s.saga.Some? && env.choice == Smooth() && RunnableAll(env, s, steps)
    requires !NoStaleClaim(s.ledger) || !ClashFree(s.ledger, steps)
    ensures !NoStaleClaim(ExecuteSteps(env, s, steps).s.ledger)
    decreases |steps|
  {
    hide AttemptStep, NoStaleClaim, Clashes, AlreadyCommitted, Runnable;
    if steps == [] {
      SameRecordsSameClaims(s.ledger, ExecuteSteps(env, s, steps).s.ledger);
    } else if AlreadyCommitted(s.ledger, steps[0].idempotencyKey) {
      PublishedClashIsStale(s.ledger, steps[0]);
      RestClashes(s.ledger, steps);
      ClashGoesStale(env, s, steps[1..]);
    } else {
      SmoothAttempt(env, s, steps);
      assert env.(choice := Smooth()) == env;
      var t := AttemptStep(env, s, steps);
      CommittedClash(s.ledger, t.s.ledger, steps[0]);
      RestClashes(s.ledger, steps);
      if !ClashFree(s.ledger, steps[1..]) {
        var i :| 0 <= i < |steps[1..]| && Clashes(s.ledger, steps[1..][i]);
        ClashStays(s.ledger, t.s.ledger, steps[0], steps[1..][i]);
      }
      ClashGoesStale(env, t.s, steps[1..]);
    }
  }

  lemma RestClashes(l: Ledger, steps: seq<SagaStep>)
    requires steps != []
    ensures !ClashFree(l, steps) ==> Clashes(l, steps[0]) || !ClashFree(l, steps[1..])
  {
    if ClashFree(l, steps[1..]) && !Clashes(l, steps[0]) {
      forall i | 0 <= i < |steps|
        ensures !Clashes(l, steps[i])
      {
        if i > 0 { assert steps[i] == steps[1..][i - 1]; }
      }
    }
  }

  lemma PublishedClashIsStale(l: Ledger, step: SagaStep)
    requires AlreadyCommitted(l, step.idempotencyKey)
    ensures Clashes(l, step) ==> !NoStaleClaim(l)
  {
  }

  /** A committed record was added and its key published. */
  ghost predicate Added(l: Ledger, l': Ledger, step: SagaStep) {
    && l'.entries == l.entries + [NewEntry(step).(state := EffectState.Committed)]
    && l'.published == Published(l, step.idempotencyKey)
  }

  lemma CommittedClash(l: Ledger, l': Ledger, step: SagaStep)
    requires Added(l, l', step)
    ensures Clashes(l, step) || !NoStaleClaim(l) ==> !NoStaleClaim(l')
  {
    assert forall i | 0 <= i < |l.entries| :: l'.entries[i] == l.entries[i];
  }

  lemma ClashStays(l: Ledger, l': Ledger, step: SagaStep, other: SagaStep)
    requires Added(l, l', step) && Clashes(l, other)
    ensures Clashes(l', other)
  {
    var i :| 0 <= i < |l.entries| && l.entries[i].state == EffectState.Executing
      && l.entries[i].idempotencyKey == other.idempotencyKey && l.entries[i].stepId != other.stepId;
    assert l'.entries[i] == l.entries[i];
  }

  /**
   For a call whose steps can run, the claims stay right whatever happens during the call if and
   only if, before it, no interrupted call of another step carries the key of one of its steps.
   */
  lemma CallKeepsClaimsIff<W(!new)>(env: Env<W>, s: Sys<W>, steps: seq<SagaStep>)
    requires s.saga.Some? && DistinctIds(s.ledger.entries) && NoStaleClaim(s.ledger)
    requires RunnableAll(env, s, steps)
    ensures ClashFree(s.ledger, steps) <==>
      forall choice :: NoStaleClaim(ExecuteSteps(env.(choice := choice), s, steps).s.ledger)
  {
    hide ExecuteSteps, NoStaleClaim, ClashFree;
    if ClashFree(s.ledger, steps) {
      forall choice
        ensures NoStaleClaim(ExecuteSteps(env.(choice := choice), s, steps).s.ledger)
      {
        ExecuteKeepsClaims(env.(choice := choice), s, steps);
      }
    } else {
      var smooth := env.(choice := Smooth());
      RunnableAnyChoice(env, smooth, s, steps);
      ClashGoesStale(smooth, s, steps);
      assert !NoStaleClaim(ExecuteSteps(env.(choice := Smooth()), s, steps).s.ledger);
    }
  }

  lemma {:induction false} RunnableAnyChoice<W>(env: Env<W>, env': Env<W>, s: Sys<W>, steps: seq<SagaStep>)
    requires s.saga.Some? && env' == env.(choice := env'.choice) && RunnableAll(env, s, steps)
    ensures RunnableAll(env', s, steps)
    decreases |steps|
  {
    hide AttemptStep;
    if steps != [] {
      if AlreadyCommitted(s.ledger, steps[0].idempotencyKey) {
        RunnableAnyChoice(env, env', s, steps[1..]);
      } else {
        assert env.(choice := Smooth()) == env'.(choice := Smooth());
        RunnableAnyChoice(env, env', AttemptStep(env.(choice := Smooth()), s, steps).s, steps[1..]);
      }
    }
  }

  // ── Whole runs ────────────────────────────────────────────────────

  /** The steps an operation submits. */
  function Submitted<W>(s: Sys<W>, op: Operation): seq<SagaStep> {
    match op
    case ExecuteOp(steps) => steps
    case ResumeOp => if s.saga.Some? then s.saga.value.pendingSteps else []
    case _ => []
  }

  /** No operation of the run submits a step that clashes with the journal it finds. */
  ghost predicate ClashFreeRun<W>(env: Env<W>, s: Sys<W>, ops: seq<Operation>)
    decreases |ops|
  {
    ops != [] ==>
      && ClashFree(s.ledger, Submitted(s, ops[0]))
      && ClashFreeRun(env, AfterTurn(Perform(env, s, ops[0])), ops[1..])
  }

  lemma PerformKeepsClaims<W>(env: Env<W>, s: Sys<W>, op: Operation)
    requires DistinctIds(s.ledger.entries) && NoStaleClaim(s.ledger) && ClashFree(s.ledger, Submitted(s, op))
    ensures NoStaleClaim(Perform(env, s, op).s.ledger)
  {
    hide ExecuteSteps, Recover, CompensateAll, NoStaleClaim, Clashes, QuietLedger, DistinctIds;
    match op
    case StartOp(goal, tenantId, now) =>
      SameRecordsSameClaims(s.ledger, Start(s, goal, tenantId, now).s.ledger);
    case ExecuteOp(steps) =>
      if s.saga.Some? { ExecuteKeepsClaims(env, s, steps); }
    case ResumeOp =>
      if s.saga.Some? { ResumeKeepsClaims(env, s); }
    case RejectOp =>
      RejectKeepsClaims(env, s);
    case RestartOp =>
      RecoverQuiet(env, s);
      QuietKeeps(s.ledger, Recover(env, s).s.ledger);
  }

  lemma ResumeKeepsClaims<W>(env: Env<W>, s: Sys<W>)
    requires s.saga.Some? && DistinctIds(s.ledger.entries) && NoStaleClaim(s.ledger)
    requires ClashFree(s.ledger, s.saga.value.pendingSteps)
    ensures NoStaleClaim(Resume(env, s).s.ledger)
  {
    hide ExecuteSteps, NoStaleClaim, DistinctIds;
    var pending := s.saga.value.pendingSteps;
    if pending != [] {
      var saga := s.saga.value.(pendingSteps := [], status := SagaStatus.Running);
      var l := WriteStatus(s.ledger, SagaStatus.Running);
      var l' := l.(metadata := l.metadata.(pendingSteps := []));
      SameRecordsSameClaims(s.ledger, l');
      var steps := pending[0 := pending[0].(approved := true)];
      assert Clashes(s.ledger, steps[0]) == Clashes(s.ledger, pending[0]);
      forall i | 0 <= i < |steps|
        ensures !Clashes(l', steps[i])
      {
        assert i > 0 ==> steps[i] == pending[i];
      }
      hide Clashes;
      ExecuteKeepsClaims(env, s.(saga := Some(saga), ledger := l'), steps);
    }
  }

  lemma RejectKeepsClaims<W>(env: Env<W>, s: Sys<W>)
    requires DistinctIds(s.ledger.entries) && NoStaleClaim(s.ledger)
    ensures NoStaleClaim(Reject(env, s).s.ledger)
  {
    hide CompensateAll, NoStaleClaim, DistinctIds, QuietLedger;
    if s.saga.Some? && s.saga.value.status == SagaStatus.AwaitingApproval {
      var saga := s.saga.value.(pendingSteps := []);
      var l := WriteStatus(s.ledger, SagaStatus.Compensating);
      var s' := s.(saga := Some(saga), ledger := l.(metadata := l.metadata.(pendingSteps := [])));
      var s1 := WithStatus(s', SagaStatus.Compensating);
      SameRecordsSameClaims(s.ledger, s1.ledger);
      assert DistinctIds(s1.ledger.entries);
      CompensateAllQuiet(env, s1, saga.completedSteps);
      QuietKeeps(s1.ledger, CompensateAll(env, s1, saga.completedSteps).s.ledger);
    }
  }

  /**
   Over any run, in any environment, with any crashes: as long as no operation submits a step that
   clashes with the journal it finds, no EXECUTING record ever carries a published key.
   */
  lemma {:induction false} RunKeepsClaims<W>(env: Env<W>, s: Sys<W>, ops: seq<Operation>)
    requires WellFormedLedger(s.ledger) && NoStaleClaim(s.ledger) && ClashFreeRun(env, s, ops)
    ensures NoStaleClaim(Run(env, s, ops).ledger)
    decreases |ops|
  {
    hide Perform, NoStaleClaim, ClashFree, FollowsGraph, Explains, MovesKnown, TotalRank, Submitted;
    if ops != [] {
      PerformKeepsClaims(env, s, ops[0]);
      WellFormedStable();
      PerformKeeps(env, s, ops[0], WellFormedLedger);
      RunKeepsClaims(env, AfterTurn(Perform(env, s, ops[0])), ops[1..]);
    }
  }

  // ── In a truthful environment ─────────────────────────────────────

  /** In a truthful environment this holds wherever a fresh saga stops. */
  lemma NoStaleClaimAtAnyStop<W(!new)>(
    env: Env<W>, s: Sys<W>, goal: string, tenantId: string, now: real,
    steps: seq<SagaStep>, decisions: seq<Decision>)
    requires Fresh(s) && TruthfulCalls(env) && Invertibles(env, steps)
    ensures var life := Serve(env, ExecuteSaga(env, Start(s, goal, tenantId, now).s, steps), decisions);
      life.end in {Crashed, Paused, AllCommitted} ==> NoStaleClaim(life.s.ledger)
  {
    hide Serve, ExecuteSaga, Start, TruthfulCalls, Invertibles, Fresh, Shape, Waiting, NoStaleClaim;
    JournalShapeAtEveryStop(env, s, goal, tenantId, now, steps, decisions);
    var life := Serve(env, ExecuteSaga(env, Start(s, goal, tenantId, now).s, steps), decisions);
    if life.end in {Crashed, Paused, AllCommitted} {
      if Shaped(env, life.s, s.world) {
        var k: nat :| Shape(env, life.s, s.world, k);
        ShapeHasNoStaleClaim(env, life.s, s.world, k);
      } else {
        WaitingHasNoStaleClaim(env, life.s, s.world);
      }
    }
  }

  lemma ShapeHasNoStaleClaim<W>(env: Env<W>, s: Sys<W>, w0: W, k: nat)
    requires Shape(env, s, w0, k)
    ensures NoStaleClaim(s.ledger)
  {
  }

  lemma WaitingHasNoStaleClaim<W>(env: Env<W>, s: Sys<W>, w0: W)
    requires Waiting(env, s, w0)
    ensures NoStaleClaim(s.ledger)
  {
    hide Shape, InForce, AlreadyCommitted;
    var k: nat :| Shape(env, Parked(s), w0, k);
    ShapeHasNoStaleClaim(env, Parked(s), w0, k);
    SameKeys(s.ledger, Parked(s).ledger);
    assert forall i | 0 <= i < |s.ledger.entries| - 1 :: Parked(s).ledger.entries[i] == s.ledger.entries[i];
  }

  /** A commit keeps it exactly when no interrupted call carries the committed key. */
  lemma CommitKeepsClaimsIff(l: Ledger, i: nat)
    requires DistinctIds(l.entries) && i < |l.entries| && l.entries[i].state == EffectState.Applied
    requires NoStaleClaim(l) && Keyed(l.entries[i].idempotencyKey)
    ensures var key := l.entries[i].idempotencyKey;
      var l' := CommitEffect(l, l.entries[i].stepId, key);
      l'.Some? && (NoStaleClaim(l'.value) <==>
        forall j | 0 <= j < |l.entries| && l.entries[j].state == EffectState.Executing ::
          l.entries[j].idempotencyKey != key)
  {
    IndexOfUnique(l.entries, i);
    var key := l.entries[i].idempotencyKey;
    var l' := CommitEffect(l, l.entries[i].stepId, key).value;
    assert forall j | 0 <= j < |l.entries| && j != i :: l'.entries[j] == l.entries[j];
    if j :| 0 <= j < |l.entries| && l.entries[j].state == EffectState.Executing && l.entries[j].idempotencyKey == key {
      assert l'.entries[j].state == EffectState.Executing && AlreadyCommitted(l', l'.entries[j].idempotencyKey);
    }
  }

  // ── Keys over whole runs ──────────────────────────────────────────

  /** A keyed record shares its key with no other: clients give every step a key of its own. */
  ghost predicate OneStepPerKey(entries: seq<Entry>) {
    forall i, j | 0 <= i < |entries| && 0 <= j < |entries| && Keyed(entries[i].idempotencyKey)
      && entries[i].idempotencyKey == entries[j].idempotencyKey :: i == j
  }

  /** A record never climbs back above a state it has reached. */
  lemma {:induction false} NeverClimbs(moves: seq<Move>, stepId: string, k: nat)
    requires FollowsGraph(moves) && k < |moves| && moves[k].stepId == stepId
    ensures Rank(StateAfter(moves, stepId)) <= Rank(moves[k].to)
    decreases |moves|
  {
    var n := |moves| - 1;
    if k < n {
      var init := moves[..n];
      assert FollowsGraph(init) by {
        assert forall j | 0 <= j < n :: init[..j] == moves[..j];
      }
      NeverClimbs(init, stepId, k);
      if moves[n].stepId == stepId {
        EdgesDescend(moves[n].from, moves[n].to);
      }
    }
  }

  /**
   Over any run in any environment whose steps do not share keys, no EXECUTING record carries a
   published key: what recovery reads off a published key is then right.
   */
  lemma OwnKeysAreNeverStale<W>(env: Env<W>, s: Sys<W>, ops: seq<Operation>)
    requires s.ledger == EMPTY_LEDGER
    requires OneStepPerKey(Run(env, s, ops).ledger.entries)
    ensures NoStaleClaim(Run(env, s, ops).ledger)
  {
    hide Run, FollowsGraph;
    PublishedKeysAreTheCommittedOnes(env, s, ops);
    EveryRunFollowsTheLifecycle(env, s, ops);
    var l := Run(env, s, ops).ledger;
    forall i | 0 <= i < |l.entries| && l.entries[i].state == EffectState.Executing
      ensures !AlreadyCommitted(l, l.entries[i].idempotencyKey)
    {
      if AlreadyCommitted(l, l.entries[i].idempotencyKey) {
        var key := l.entries[i].idempotencyKey.value;
        var k :| CommitsKey(l.moves, l.entries, k, key);
        var j := IndexOf(l.entries, l.moves[k].stepId);
        assert j == i;
        NeverClimbs(l.moves, l.entries[i].stepId, k);
      }
    }
  }

  /** Two steps of one saga that share a key. */
  function SharingStep(stepId: string): SagaStep {
    var payload := ActionPayload("NOOP", map[]);
    SagaStep(stepId, "", payload, payload, "", PENDING, "", Some("key"), false, false)
  }

  /** A counter, and a process that dies right before its first external call. */
  function CounterDyingOnce(): Env<int> {
    Env((action, count: int) => Some(count + 1), (compensation, count: int) => Some(count - 1), false, true, false, DiesAt(2))
  }

  lemma FirstDies(s: Sys<int>)
    requires s.saga.Some? && s.clock == 0 && s.ledger.entries == [] && s.ledger.published == {}
    ensures var step := SharingStep("a");
      var t := ExecuteSaga(CounterDyingOnce(), s, [step]);
      && t.end == Crashed && t.s.clock == 3 && t.s.ledger.published == {}
      && t.s.ledger.entries == [NewEntry(step).(state := EffectState.Executing)]
  {
    var env, step := CounterDyingOnce(), SharingStep("a");
    var l := s.ledger.(entries := [NewEntry(step)]);
    assert s.ledger.entries + [NewEntry(step)] == l.entries;
    assert PrepareEffect(s.ledger, step) == Some(l);
    assert MoveAt(l, "a", Claim) == Some(SetState(l, 0, EffectState.Executing, ""));
    hide PrepareEffect, MoveAt, Abandon, IndexOf;
    var t := AttemptStep(env, s, [step]);
    assert t == PrepareStep(env, Tick(s), step);
  }

  lemma SecondCommits(s: Sys<int>)
    requires s.saga.Some? && s.clock == 3 && s.ledger.published == {}
    requires s.ledger.entries == [NewEntry(SharingStep("a")).(state := EffectState.Executing)]
    ensures !NoStaleClaim(ExecuteSaga(CounterDyingOnce(), s, [SharingStep("b")]).s.ledger)
  {
    var env, step, e := CounterDyingOnce(), SharingStep("b"), s.ledger.entries[0];
    var l := s.ledger.(entries := [e, NewEntry(step)]);
    assert s.ledger.entries + [NewEntry(step)] == l.entries;
    assert PrepareEffect(s.ledger, step) == Some(l);
    assert MoveAt(l, "b", Claim) == Some(SetState(l, 1, EffectState.Executing, ""));
    var l1 := SetState(l, 1, EffectState.Executing, "");
    assert MoveAt(l1, "b", RecordApplied) == Some(SetState(l1, 1, EffectState.Applied, ""));
    var l2 := SetState(l1, 1, EffectState.Applied, "");
    var l3 := SetState(l2, 1, EffectState.Committed, "").(published := {"key"});
    assert l2.published + {"key"} == l3.published;
    assert CommitEffect(l2, "b", Some("key")) == Some(l3);
    hide PrepareEffect, MoveAt, CommitEffect, Abandon, IndexOf;
    var t := AttemptStep(env, s, [step]);
    assert t == PrepareStep(env, Tick(s), step);
    assert t.end == Proceed && t.s.ledger == l3;
    assert [step][1..] == [];
    assert l3.entries[0] == e;
  }

  /**
   Without that condition the claim fails: the process dies with step a EXECUTING, the saga is
   started again without recovery, and step b commits under the same key.
   */
  lemma SharedKeyGoesStale()
    ensures var s: Sys<int> := Sys(EMPTY_LEDGER, None, 0, 0, multiset{}, multiset{});
      var start := StartOp("", "", 0.0);
      !NoStaleClaim(Run(CounterDyingOnce(), s,
        [start, ExecuteOp([SharingStep("a")]), start, ExecuteOp([SharingStep("b")])]).ledger)
  {
    hide ExecuteSaga, NoStaleClaim, SharingStep, CounterDyingOnce;
    var env, start, a, b := CounterDyingOnce(), StartOp("", "", 0.0), ExecuteOp([SharingStep("a")]), ExecuteOp([SharingStep("b")]);
    var s: Sys<int> := Sys(EMPTY_LEDGER, None, 0, 0, multiset{}, multiset{});
    var ops := [start, a, start, b];
    assert ops[1..] == [a, start, b] && ops[1..][1..] == [start, b] && ops[1..][1..][1..] == [b];
    var s1 := Start(s, "", "", 0.0).s;
    FirstDies(s1);
    var s2 := AfterTurn(Perform(env, s1, a));
    var s3 := Start(s2, "", "", 0.0).s;
    SecondCommits(s3);
    assert Run(env, s, ops) == Run(env, s1, [a, start, b]);
    assert Run(env, s1, [a, start, b]) == Run(env, s2, [start, b]) by { assert [a, start, b][1..] == [start, b]; }
    assert Run(env, s2, [start, b]) == Run(env, s3, [b]) by { assert [start, b][1..] == [b]; }
    assert Run(env, s3, [b]) == AfterTurn(Perform(env, s3, b)) by { assert [b][1..] == []; }
  }
}
