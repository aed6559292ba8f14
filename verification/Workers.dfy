/**
 The coordinator is one of the workers: each of its operations, as CoordinatorSpec computes it, is
 a sequence of the atomic actions whose interleavings are studied in Interleaving, and every
 forward effect comes from one of its calls.
 */
module Workers {
  import opened Prelude
  import opened Sagas
  import opened Journal
  import opened StepCodec
  import opened Environment
  import opened CoordinatorSpec
  import opened Runs
  import opened Rollback
  import opened Interleaving

  // ── Sequences of actions ──────────────────────────────────────────

  lemma {:induction false} ApplyTwo(st: State, xs: seq<Action>, ys: seq<Action>)
    ensures ApplyAll(st, xs + ys) == ApplyAll(ApplyAll(st, xs), ys)
    decreases |xs|
  {
    if xs == [] {
      assert xs + ys == ys;
    } else {
      assert (xs + ys)[1..] == xs[1..] + ys;
      ApplyTwo(Interleaving.Apply(st, xs[0]), xs[1..], ys);
    }
  }

  /** Whoever else is at work, these actions take the ledger from one value to the other and do nothing else. */
  ghost predicate Writes(l: Ledger, l': Ledger, actions: seq<Action>) {
    forall st: State | st.ledger == l :: ApplyAll(st, actions) == st.(ledger := l')
  }

  lemma NoWrites(l: Ledger)
    ensures Writes(l, l, [])
  {
  }

  lemma WritesTrans(l: Ledger, m: Ledger, n: Ledger, xs: seq<Action>, ys: seq<Action>)
    requires Writes(l, m, xs) && Writes(m, n, ys)
    ensures Writes(l, n, xs + ys)
  {
    hide ApplyAll;
    forall st: State | st.ledger == l
      ensures ApplyAll(st, xs + ys) == st.(ledger := n)
    {
      ApplyTwo(st, xs, ys);
      assert ApplyAll(st, xs) == st.(ledger := m);
    }
  }

  lemma ApplyOne(st: State, a: Action)
    ensures ApplyAll(st, [a]) == Interleaving.Apply(st, a)
  {
    assert [a][1..] == [];
  }

  /** The single writes of the coordinator. */
  lemma OneWrite(l: Ledger)
    ensures forall stepId, site, error | site != Site.Claim ::
      Writes(l, MoveAt(l, stepId, site, error).GetOr(l), [MoveBy(stepId, site, error)])
    ensures forall stepId, key :: Writes(l, CommitEffect(l, stepId, key).GetOr(l), [Commit(stepId, key)])
    ensures forall status :: Writes(l, WriteStatus(l, status), [SetStatus(status)])
    ensures forall metadata :: Writes(l, l.(metadata := metadata), [SetMetadata(metadata)])
    ensures forall stepName, error :: Writes(l, PushDeadLetter(l, stepName, error), [DeadLetterAction(stepName, error)])
  {
    hide ApplyAll, MoveAt, CommitEffect, WriteStatus, PushDeadLetter;
    forall st: State, a: Action
      ensures ApplyAll(st, [a]) == Interleaving.Apply(st, a)
    {
      ApplyOne(st, a);
    }
  }

  // ── Rollback ──────────────────────────────────────────────────────

  lemma LettersActs(l: Ledger, stepName: string, error: string) returns (actions: seq<Action>)
    ensures Writes(l, DeadLetterRecovery(l, stepName, error), actions)
  {
    hide Writes;
    var m := WriteStatus(l, SagaStatus.CompensationFailed);
    OneWrite(l);
    OneWrite(m);
    WritesTrans(l, m, DeadLetterRecovery(l, stepName, error),
                [SetStatus(SagaStatus.CompensationFailed)], [DeadLetterAction(stepName, error)]);
    actions := [SetStatus(SagaStatus.CompensationFailed)] + [DeadLetterAction(stepName, error)];
  }

  lemma HandleActs<W>(s: Sys<W>, step: SagaStep) returns (actions: seq<Action>)
    ensures Writes(s.ledger, HandleCompensationFailure(s, step).s.ledger, actions)
  {
    hide Writes, MoveAt;
    var l := WriteStatus(s.ledger, SagaStatus.CompensationFailed);
    var m := MoveAt(l, step.stepId, FailCompensation, UNDO_FAILED).GetOr(l);
    var n := PushDeadLetter(m, step.stepName, UNDO_FAILED);
    OneWrite(s.ledger);
    OneWrite(l);
    OneWrite(m);
    var xs, ys, zs := [SetStatus(SagaStatus.CompensationFailed)], [MoveBy(step.stepId, FailCompensation, UNDO_FAILED)],
                      [DeadLetterAction(step.stepName, UNDO_FAILED)];
    WritesTrans(s.ledger, l, m, xs, ys);
    WritesTrans(s.ledger, m, n, xs + ys, zs);
    actions := xs + ys + zs;
  }

  lemma UndoCallActs<W>(env: Env<W>, s: Sys<W>, step: SagaStep) returns (actions: seq<Action>)
    ensures Writes(s.ledger, CompensationCall(env, s, step).s.ledger, actions)
  {
    var a := ExecuteCompensation(env, Tick(s), step.stepId, step.compensation);
    assert a.s.ledger == s.ledger;
    hide Writes, MoveAt, HandleCompensationFailure, ExecuteCompensation;
    NoWrites(s.ledger);
    OneWrite(s.ledger);
    if CrashesHere(env, s) {
      actions := [];
    } else if a.reply.Raised? {
      actions := HandleActs(a.s, step);
    } else if CrashesHere(env, a.s) {
      actions := [];
    } else if a.reply.Refused? || MoveAt(a.s.ledger, step.stepId, RecordCompensated).None? {
      actions := HandleActs(Tick(a.s), step);
    } else {
      actions := [MoveBy(step.stepId, RecordCompensated, "")];
    }
  }

  lemma CompensateStepActs<W>(env: Env<W>, s: Sys<W>, step: SagaStep) returns (actions: seq<Action>)
    ensures Writes(s.ledger, CompensateStep(env, s, step).s.ledger, actions)
  {
    hide Writes, MoveAt, HandleCompensationFailure, CompensationCall, IndexOf;
    var i := IndexOf(s.ledger.entries, step.stepId);
    var marked := MoveAt(s.ledger, step.stepId, BeginCompensation);
    if i == |s.ledger.entries| {
      actions := HandleActs(s, step);
    } else if marked.Some? {
      OneWrite(s.ledger);
      var s1 := s.(ledger := marked.value);
      var rest := UndoCallActs(env, s1, step);
      actions := [MoveBy(step.stepId, BeginCompensation, "")] + rest;
      WritesTrans(s.ledger, s1.ledger, CompensateStep(env, s, step).s.ledger,
                  [MoveBy(step.stepId, BeginCompensation, "")], rest);
    } else if s.ledger.entries[i].state == EffectState.Compensating {
      actions := UndoCallActs(env, s, step);
    } else {
      actions := HandleActs(s, step);
    }
  }

  lemma {:induction false} CompensateAllActs<W>(env: Env<W>, s: Sys<W>, completed: seq<SagaStep>)
    returns (actions: seq<Action>)
    ensures Writes(s.ledger, CompensateAll(env, s, completed).s.ledger, actions)
    decreases |completed|
  {
    hide Writes, CompensateStep;
    if completed == [] {
      OneWrite(s.ledger);
      actions := [SetStatus(SagaStatus.RolledBack)];
    } else {
      var step := completed[|completed| - 1];
      actions := CompensateStepActs(env, s, step);
      var t := CompensateStep(env, s, step);
      if t.end == Proceed {
        var rest := CompensateAllActs(env, t.s, completed[..|completed| - 1]);
        WritesTrans(s.ledger, t.s.ledger, CompensateAll(env, s, completed).s.ledger, actions, rest);
        actions := actions + rest;
      }
    }
  }

  lemma RollBackActs<W>(env: Env<W>, s: Sys<W>, completed: seq<SagaStep>) returns (actions: seq<Action>)
    ensures Writes(s.ledger, RollBack(env, s, completed).s.ledger, actions)
  {
    hide Writes, CompensateAll;
    var s1 := WithStatus(s, SagaStatus.Compensating);
    OneWrite(s.ledger);
    var rest := CompensateAllActs(env, s1, completed);
    actions := [SetStatus(SagaStatus.Compensating)] + rest;
    WritesTrans(s.ledger, s1.ledger, RollBack(env, s, completed).s.ledger, [SetStatus(SagaStatus.Compensating)], rest);
  }

  lemma AbandonActs<W>(env: Env<W>, s: Sys<W>) returns (actions: seq<Action>)
    ensures Writes(s.ledger, Abandon(env, s).s.ledger, actions)
  {
    hide Writes, RollBack;
    actions := RollBackActs(env, s, Completed(s));
  }

  lemma AmbiguousActs<W>(env: Env<W>, s: Sys<W>, step: SagaStep) returns (actions: seq<Action>)
    ensures Writes(s.ledger, AbandonAmbiguous(env, s, step).s.ledger, actions)
  {
    hide Writes, Abandon, MoveAt, DeadLetterRecovery;
    actions := AbandonActs(env, s);
    var t := Abandon(env, s);
    if t.end != Crashed {
      var m := MoveAt(t.s.ledger, step.stepId, RecordRaised, CALL_RAISED).GetOr(t.s.ledger);
      OneWrite(t.s.ledger);
      var letters := LettersActs(m, step.stepName, CALL_RAISED);
      var move := [MoveBy(step.stepId, RecordRaised, CALL_RAISED)];
      WritesTrans(s.ledger, t.s.ledger, m, actions, move);
      WritesTrans(s.ledger, m, AbandonAmbiguous(env, s, step).s.ledger, actions + move, letters);
      actions := actions + move + letters;
    }
  }

  // ── A step ────────────────────────────────────────────────────────

  function Ids(calls: seq<Entry>): multiset<string> {
    if calls == [] then multiset{} else multiset{calls[0].stepId} + Ids(calls[1..])
  }

  lemma {:induction false} IdsOfTwo(xs: seq<Entry>, ys: seq<Entry>)
    ensures Ids(xs + ys) == Ids(xs) + Ids(ys)
  {
    if xs == [] {
      assert xs + ys == ys;
    } else {
      assert (xs + ys)[1..] == xs[1..] + ys;
      IdsOfTwo(xs[1..], ys);
    }
  }

  /** Part of a worker's life: from one stage to another, or to none when it is over. */
  ghost predicate Stage(
    l: Ledger, l': Ledger, w: nat, from: Option<Worker>, to: Option<Worker>, calls: seq<Entry>, actions: seq<Action>)
  {
    forall st: State | st.ledger == l && w !in st.workers ::
      ApplyAll(AtStage(st, w, from), actions) == AtStage(st, w, to).(ledger := l', calls := st.calls + calls)
  }

  function AtStage(st: State, w: nat, stage: Option<Worker>): State {
    if stage.Some? then st.(workers := st.workers[w := stage.value]) else st
  }

  lemma StageTrans(
    l: Ledger, m: Ledger, n: Ledger, w: nat, a: Option<Worker>, b: Option<Worker>, c: Option<Worker>,
    xs: seq<Entry>, ys: seq<Entry>, first: seq<Action>, second: seq<Action>)
    requires Stage(l, m, w, a, b, xs, first) && Stage(m, n, w, b, c, ys, second)
    ensures Stage(l, n, w, a, c, xs + ys, first + second)
  {
    hide ApplyAll;
    forall st: State | st.ledger == l && w !in st.workers
      ensures ApplyAll(AtStage(st, w, a), first + second) == AtStage(st, w, c).(ledger := n, calls := st.calls + (xs + ys))
    {
      ApplyTwo(AtStage(st, w, a), first, second);
      var st1 := st.(ledger := m, calls := st.calls + xs);
      assert ApplyAll(AtStage(st, w, a), first) == AtStage(st1, w, b);
      assert ApplyAll(AtStage(st1, w, b), second) == AtStage(st1, w, c).(ledger := n, calls := st1.calls + ys);
      assert st.calls + xs + ys == st.calls + (xs + ys);
    }
  }

  /** Writes need no worker, whatever stage there is one at. */
  lemma WritesAreStages(l: Ledger, l': Ledger, w: nat, stage: Option<Worker>, actions: seq<Action>)
    requires Writes(l, l', actions)
    ensures Stage(l, l', w, stage, stage, [], actions)
  {
    hide ApplyAll;
    forall st: State | st.ledger == l && w !in st.workers
      ensures ApplyAll(AtStage(st, w, stage), actions) == AtStage(st, w, stage).(ledger := l', calls := st.calls + [])
    {
      assert st.calls + [] == st.calls;
    }
  }

  lemma SameWorkers(st: State, w: nat, worker: Worker)
    requires w !in st.workers
    ensures Without(st.workers[w := worker], w) == st.workers
    ensures Without(st.workers, w) == st.workers
  {
  }

  lemma SubmitStage(l: Ledger, w: nat, step: SagaStep)
    ensures Stage(l, l, w, None, Some(Submitted(step)), [], [Submit(w, step)])
  {
    forall st: State | st.ledger == l && w !in st.workers
      ensures ApplyAll(st, [Submit(w, step)]) == AtStage(st, w, Some(Submitted(step))).(ledger := l, calls := st.calls + [])
    {
      ApplyOne(st, Submit(w, step));
      assert st.calls + [] == st.calls;
    }
  }

  lemma RegisterStage(l: Ledger, w: nat, step: SagaStep)
    ensures var prepared := PrepareEffect(l, step);
      if prepared.Some?
      then Stage(l, prepared.value, w, Some(Submitted(step)), Some(Registered(step)), [], [Register(w)])
      else Stage(l, l, w, Some(Submitted(step)), None, [], [Register(w)])
  {
    hide PrepareEffect;
    forall st: State | st.ledger == l && w !in st.workers
      ensures var now := ApplyAll(AtStage(st, w, Some(Submitted(step))), [Register(w)]);
        var prepared := PrepareEffect(l, step);
        now == if prepared.Some?
               then AtStage(st, w, Some(Registered(step))).(ledger := prepared.value, calls := st.calls + [])
               else st.(ledger := l, calls := st.calls + [])
    {
      ApplyOne(AtStage(st, w, Some(Submitted(step))), Register(w));
      SameWorkers(st, w, Submitted(step));
      assert st.calls + [] == st.calls;
      assert st.workers[w := Submitted(step)][w := Registered(step)] == st.workers[w := Registered(step)];
    }
  }

  lemma ClaimStage(l: Ledger, w: nat, step: SagaStep)
    ensures var claimed := MoveAt(l, step.stepId, Site.Claim);
      if claimed.Some?
      then Stage(l, claimed.value, w, Some(Registered(step)), Some(Claimed(step)), [], [Action.Claim(w)])
      else Stage(l, l, w, Some(Registered(step)), None, [], [Action.Claim(w)])
  {
    hide MoveAt;
    forall st: State | st.ledger == l && w !in st.workers
      ensures var now := ApplyAll(AtStage(st, w, Some(Registered(step))), [Action.Claim(w)]);
        var claimed := MoveAt(l, step.stepId, Site.Claim);
        now == if claimed.Some?
               then AtStage(st, w, Some(Claimed(step))).(ledger := claimed.value, calls := st.calls + [])
               else st.(ledger := l, calls := st.calls + [])
    {
      ApplyOne(AtStage(st, w, Some(Registered(step))), Action.Claim(w));
      SameWorkers(st, w, Registered(step));
      assert st.calls + [] == st.calls;
      assert st.workers[w := Registered(step)][w := Claimed(step)] == st.workers[w := Claimed(step)];
    }
  }

  lemma CallStage(l: Ledger, w: nat, step: SagaStep)
    ensures Stage(l, l, w, Some(Claimed(step)), Some(Called(step)), [NewEntry(step)], [Action.Call(w)])
  {
    forall st: State | st.ledger == l && w !in st.workers
      ensures ApplyAll(AtStage(st, w, Some(Claimed(step))), [Action.Call(w)])
        == AtStage(st, w, Some(Called(step))).(ledger := l, calls := st.calls + [NewEntry(step)])
    {
      ApplyOne(AtStage(st, w, Some(Claimed(step))), Action.Call(w));
      assert st.workers[w := Claimed(step)][w := Called(step)] == st.workers[w := Called(step)];
    }
  }

  lemma DieStage(l: Ledger, w: nat, worker: Worker)
    ensures Stage(l, l, w, Some(worker), None, [], [Die(w)])
  {
    forall st: State | st.ledger == l && w !in st.workers
      ensures ApplyAll(AtStage(st, w, Some(worker)), [Die(w)]) == st.(ledger := l, calls := st.calls + [])
    {
      ApplyOne(AtStage(st, w, Some(worker)), Die(w));
      SameWorkers(st, w, worker);
      assert st.calls + [] == st.calls;
    }
  }

  /** With w as the number of a new worker, these actions take the ledger from one value to the other and make these calls. */
  ghost predicate Works(l: Ledger, l': Ledger, w: nat, calls: seq<Entry>, actions: seq<Action>) {
    Stage(l, l', w, None, None, calls, actions)
  }

  lemma RecordActs<W>(env: Env<W>, s: Sys<W>, step: SagaStep) returns (actions: seq<Action>)
    requires s.saga.Some?
    ensures Writes(s.ledger, RecordStep(env, s, step).s.ledger, actions)
    ensures RecordStep(env, s, step).s.runs == s.runs
  {
    hide Writes, MoveAt, CommitEffect, Abandon, AbandonAmbiguous;
    RunsStay(env, s, step);
    var applied := MoveAt(s.ledger, step.stepId, RecordApplied);
    if applied.None? {
      actions := AmbiguousActs(env, s, step);
    } else {
      OneWrite(s.ledger);
      var s1 := s.(ledger := applied.value);
      actions := [MoveBy(step.stepId, RecordApplied, "")];
      if !CrashesHere(env, s1) {
        var s2 := AppendCompleted(Tick(s1), step);
        assert s2.ledger == s1.ledger && s2.runs == s.runs;
        RunsStay(env, s2, step);
        OneWrite(s2.ledger);
        var committed := CommitEffect(s2.ledger, step.stepId, step.idempotencyKey);
        var rest := [Commit(step.stepId, step.idempotencyKey)];
        if committed.None? {
          rest := AbandonActs(env, s2);
        }
        WritesTrans(s.ledger, s1.ledger, RecordStep(env, s, step).s.ledger, actions, rest);
        actions := actions + rest;
      }
    }
  }

  lemma RunsStay<W>(env: Env<W>, s: Sys<W>, step: SagaStep)
    ensures Abandon(env, s).s.runs == s.runs && AbandonAmbiguous(env, s, step).s.runs == s.runs
  {
    hide Abandon, AbandonAmbiguous, QuietLedger;
    AbandonQuiet(env, s);
    AbandonAmbiguousQuiet(env, s, step);
  }

  lemma AnswerRuns<W>(env: Env<W>, s: Sys<W>, step: SagaStep)
    ensures var a := Execute(env, s, step.stepId, step.action);
      a.s.ledger == s.ledger && a.s.saga == s.saga && a.s.runs <= s.runs + Ids([NewEntry(step)])
  {
    assert [NewEntry(step)][1..] == [];
    assert Ids([NewEntry(step)]) == multiset{step.stepId};
  }

  /** What follows the answer of the call, for a worker that has called. */
  lemma AfterCallActs<W>(env: Env<W>, s: Sys<W>, step: SagaStep, reply: Reply, a: Sys<W>) returns (actions: seq<Action>)
    requires s.saga.Some? && !CrashesHere(env, s)
    requires Execute(env, Tick(s), step.stepId, step.action) == Answer(reply, a)
    requires a.ledger == s.ledger && a.saga == s.saga
    ensures Writes(s.ledger, CallStep(env, s, step).s.ledger, actions)
    ensures CallStep(env, s, step).s.runs == a.runs
  {
    hide Writes, MoveAt, Abandon, AbandonAmbiguous, RecordStep, Execute;
    RunsStay(env, a, step);
    RunsStay(env, Tick(a), step);
    if reply == Raised {
      actions := AmbiguousActs(env, a, step);
    } else if CrashesHere(env, a) {
      NoWrites(s.ledger);
      actions := [];
    } else if reply == Refused {
      var aborted := MoveAt(a.ledger, step.stepId, RejectCall, CALL_FAILED);
      if aborted.None? {
        actions := AmbiguousActs(env, Tick(a), step);
      } else {
        OneWrite(s.ledger);
        var x := Tick(a).(ledger := aborted.value);
        RunsStay(env, x, step);
        var rest := AbandonActs(env, x);
        actions := [MoveBy(step.stepId, RejectCall, CALL_FAILED)];
        WritesTrans(s.ledger, x.ledger, CallStep(env, s, step).s.ledger, actions, rest);
        actions := actions + rest;
      }
    } else {
      actions := RecordActs(env, Tick(a), step);
    }
  }

  lemma CallActs<W>(env: Env<W>, s: Sys<W>, step: SagaStep, w: nat) returns (calls: seq<Entry>, actions: seq<Action>)
    requires s.saga.Some?
    ensures Stage(s.ledger, CallStep(env, s, step).s.ledger, w, Some(Claimed(step)), None, calls, actions)
    ensures CallStep(env, s, step).s.runs <= s.runs + Ids(calls)
  {
    hide Writes, Stage;
    var l, l' := s.ledger, CallStep(env, s, step).s.ledger;
    if CrashesHere(env, s) {
      DieStage(l, w, Claimed(step));
      calls, actions := [], [Die(w)];
    } else {
      var a := Execute(env, Tick(s), step.stepId, step.action);
      AnswerRuns(env, Tick(s), step);
      hide Execute, CallStep;
      var rest := AfterCallActs(env, s, step, a.reply, a.s);
      CallStage(l, w, step);
      DieStage(l, w, Called(step));
      StageTrans(l, l, l, w, Some(Claimed(step)), Some(Called(step)), None, [NewEntry(step)], [], [Action.Call(w)], [Die(w)]);
      WritesAreStages(l, l', w, None, rest);
      StageTrans(l, l, l', w, Some(Claimed(step)), None, None, [NewEntry(step)] + [], [], [Action.Call(w)] + [Die(w)], rest);
      calls, actions := [NewEntry(step)] + [] + [], [Action.Call(w)] + [Die(w)] + rest;
      assert calls == [NewEntry(step)];
    }
  }

  /** A step: registered, claimed, called and recorded by one worker, in actions that may interleave with any others. */
  lemma PrepareActs<W>(env: Env<W>, s: Sys<W>, step: SagaStep, w: nat) returns (calls: seq<Entry>, actions: seq<Action>)
    requires s.saga.Some?
    ensures Works(s.ledger, PrepareStep(env, s, step).s.ledger, w, calls, actions)
    ensures PrepareStep(env, s, step).s.runs <= s.runs + Ids(calls)
  {
    hide Writes, Stage, PrepareEffect, MoveAt, CallStep, Abandon;
    var l, l' := s.ledger, PrepareStep(env, s, step).s.ledger;
    SubmitStage(l, w, step);
    RegisterStage(l, w, step);
    var prepared := PrepareEffect(l, step);
    var first := [Submit(w, step)] + [Register(w)];
    if prepared.None? {
      RunsStay(env, s, step);
      StageTrans(l, l, l, w, None, Some(Submitted(step)), None, [], [], [Submit(w, step)], [Register(w)]);
      var rest := AbandonActs(env, s);
      WritesAreStages(l, l', w, None, rest);
      StageTrans(l, l, l', w, None, None, None, [] + [], [], first, rest);
      calls, actions := [] + [] + [], first + rest;
    } else {
      var s1 := s.(ledger := prepared.value);
      var m := s1.ledger;
      StageTrans(l, l, m, w, None, Some(Submitted(step)), Some(Registered(step)), [], [], [Submit(w, step)], [Register(w)]);
      if CrashesHere(env, s1) {
        DieStage(m, w, Registered(step));
        StageTrans(l, m, m, w, None, Some(Registered(step)), None, [] + [], [], first, [Die(w)]);
        calls, actions := [] + [] + [], first + [Die(w)];
      } else {
        ClaimStage(m, w, step);
        var claimed := MoveAt(m, step.stepId, Site.Claim);
        var claim := [Action.Claim(w)];
        if claimed.None? {
          RunsStay(env, Tick(s1), step);
          StageTrans(l, m, m, w, None, Some(Registered(step)), None, [] + [], [], first, claim);
          var rest := AbandonActs(env, Tick(s1));
          WritesAreStages(m, l', w, None, rest);
          StageTrans(l, m, l', w, None, None, None, [] + [] + [], [], first + claim, rest);
          calls, actions := [] + [] + [] + [], first + claim + rest;
        } else {
          var s2 := Tick(s1).(ledger := claimed.value);
          StageTrans(l, m, s2.ledger, w, None, Some(Registered(step)), Some(Claimed(step)), [] + [], [], first, claim);
          var made, rest := CallActs(env, s2, step, w);
          StageTrans(l, s2.ledger, l', w, None, Some(Claimed(step)), None, [] + [] + [], made, first + claim, rest);
          calls, actions := [] + [] + [] + made, first + claim + rest;
          assert calls == made;
        }
      }
    }
  }

  // ── Whole operations ──────────────────────────────────────────────

  lemma WorksTrans(
    l: Ledger, m: Ledger, n: Ledger, w: nat, xs: seq<Entry>, ys: seq<Entry>, first: seq<Action>, second: seq<Action>)
    requires Works(l, m, w, xs, first) && Works(m, n, w, ys, second)
    ensures Works(l, n, w, xs + ys, first + second) && Ids(xs + ys) == Ids(xs) + Ids(ys)
  {
    hide Stage;
    StageTrans(l, m, n, w, None, None, None, xs, ys, first, second);
    IdsOfTwo(xs, ys);
  }

  lemma WritesWork(l: Ledger, l': Ledger, w: nat, actions: seq<Action>)
    requires Writes(l, l', actions)
    ensures Works(l, l', w, [], actions)
  {
    hide Writes, Stage;
    WritesAreStages(l, l', w, None, actions);
  }

  lemma PauseActs<W>(s: Sys<W>, steps: seq<SagaStep>) returns (actions: seq<Action>)
    requires s.saga.Some? && steps != []
    ensures Writes(s.ledger, Pause(s, steps).s.ledger, actions)
  {
    hide Writes, SerializeSteps;
    var l := WriteStatus(s.ledger, SagaStatus.AwaitingApproval);
    var m := Pause(s, steps).s.ledger;
    OneWrite(s.ledger);
    OneWrite(l);
    var xs, ys := [SetStatus(SagaStatus.AwaitingApproval)], [SetMetadata(m.metadata)];
    assert m == l.(metadata := m.metadata);
    WritesTrans(s.ledger, l, m, xs, ys);
    actions := xs + ys;
  }

  lemma AttemptActs<W>(env: Env<W>, s: Sys<W>, steps: seq<SagaStep>, w: nat) returns (calls: seq<Entry>, actions: seq<Action>)
    requires s.saga.Some? && steps != []
    ensures Works(s.ledger, AttemptStep(env, s, steps).s.ledger, w, calls, actions)
    ensures AttemptStep(env, s, steps).s.runs <= s.runs + Ids(calls)
  {
    hide Writes, Works, Abandon, Pause, PrepareStep;
    var c := env.choice(s.clock);
    calls := [];
    if c.gate != Admit || !c.preflight {
      RunsStay(env, Tick(s), steps[0]);
      actions := AbandonActs(env, Tick(s));
      WritesWork(s.ledger, AttemptStep(env, s, steps).s.ledger, w, actions);
    } else if steps[0].requiresApproval && !steps[0].approved {
      PauseRuns(Tick(s), steps);
      actions := PauseActs(Tick(s), steps);
      WritesWork(s.ledger, AttemptStep(env, s, steps).s.ledger, w, actions);
    } else {
      calls, actions := PrepareActs(env, Tick(s), steps[0], w);
    }
  }

  lemma PauseRuns<W>(s: Sys<W>, steps: seq<SagaStep>)
    requires s.saga.Some? && steps != []
    ensures Pause(s, steps).s.runs == s.runs
  {
  }

  lemma {:induction false} ExecuteActs<W>(env: Env<W>, s: Sys<W>, steps: seq<SagaStep>, w: nat)
    returns (calls: seq<Entry>, actions: seq<Action>)
    requires s.saga.Some?
    ensures Works(s.ledger, ExecuteSteps(env, s, steps).s.ledger, w, calls, actions)
    ensures ExecuteSteps(env, s, steps).s.runs <= s.runs + Ids(calls)
    decreases |steps|
  {
    hide Writes, Works, AttemptStep, AlreadyCommitted;
    if steps == [] {
      OneWrite(s.ledger);
      calls, actions := [], [SetStatus(SagaStatus.Committed)];
      WritesWork(s.ledger, ExecuteSteps(env, s, steps).s.ledger, w, actions);
    } else if AlreadyCommitted(s.ledger, steps[0].idempotencyKey) {
      calls, actions := ExecuteActs(env, s, steps[1..], w);
    } else {
      calls, actions := AttemptActs(env, s, steps, w);
      var t := AttemptStep(env, s, steps);
      if t.end == Proceed {
        var more, rest := ExecuteActs(env, t.s, steps[1..], w);
        WorksTrans(s.ledger, t.s.ledger, ExecuteSteps(env, s, steps).s.ledger, w, calls, more, actions, rest);
        calls, actions := calls + more, actions + rest;
      }
    }
  }

  // ── Recovery ──────────────────────────────────────────────────────

  lemma RecoveryMoveActs<W>(s: Sys<W>, stepId: string, site: Site) returns (actions: seq<Action>)
    requires site != Site.Claim
    ensures Writes(s.ledger, RecoveryMove(s, stepId, site).s.ledger, actions)
  {
    hide Writes, MoveAt;
    OneWrite(s.ledger);
    actions := [MoveBy(stepId, site, "")];
  }

  lemma FailRecoveryActs<W>(s: Sys<W>, e: Entry, error: string) returns (actions: seq<Action>)
    ensures Writes(s.ledger, FailRecoveryCompensation(s, e, error).s.ledger, actions)
  {
    hide Writes, MoveAt, DeadLetterRecovery;
    NoWrites(s.ledger);
    OneWrite(s.ledger);
    var moved := MoveAt(s.ledger, e.stepId, FailCompensation, error);
    actions := [];
    if moved.Some? {
      var letters := LettersActs(moved.value, e.stepName, error);
      actions := [MoveBy(e.stepId, FailCompensation, error)];
      WritesTrans(s.ledger, moved.value, FailRecoveryCompensation(s, e, error).s.ledger, actions, letters);
      actions := actions + letters;
    }
  }

  lemma RecoveryUndoActs<W>(env: Env<W>, s: Sys<W>, e: Entry) returns (actions: seq<Action>)
    ensures Writes(s.ledger, RecoveryCompensation(env, s, e).s.ledger, actions)
    ensures RecoveryCompensation(env, s, e).s.runs == s.runs
  {
    var a := ExecuteCompensation(env, Tick(s), e.stepId, e.compensation);
    assert a.s.ledger == s.ledger && a.s.runs == s.runs;
    FailRuns(a.s, e, UNDO_FAILED);
    FailRuns(Tick(a.s), e, UNDO_FAILED);
    hide Writes, MoveAt, FailRecoveryCompensation, ExecuteCompensation;
    NoWrites(s.ledger);
    OneWrite(s.ledger);
    if CrashesHere(env, s) {
      actions := [];
    } else if !a.reply.Succeeded? {
      actions := FailRecoveryActs(a.s, e, UNDO_FAILED);
    } else if CrashesHere(env, a.s) {
      actions := [];
    } else if MoveAt(a.s.ledger, e.stepId, RecordCompensated).Some? {
      actions := [MoveBy(e.stepId, RecordCompensated, "")];
    } else {
      actions := FailRecoveryActs(Tick(a.s), e, UNDO_FAILED);
    }
  }

  lemma FailRuns<W>(s: Sys<W>, e: Entry, error: string)
    ensures FailRecoveryCompensation(s, e, error).s.runs == s.runs
    ensures QuarantineForward(s, e, error).s.runs == s.runs
  {
  }

  lemma BeginActs<W>(env: Env<W>, s: Sys<W>, e: Entry) returns (actions: seq<Action>)
    ensures Writes(s.ledger, BeginRecoveryCompensation(env, s, e).s.ledger, actions)
    ensures BeginRecoveryCompensation(env, s, e).s.runs == s.runs
  {
    hide Writes, RecoveryCompensation, MoveAt;
    actions := RecoveryMoveActs(s, e.stepId, BeginCompensation);
    var t := RecoveryMove(s, e.stepId, BeginCompensation);
    if t.end == Proceed {
      var rest := RecoveryUndoActs(env, t.s, e);
      WritesTrans(s.ledger, t.s.ledger, BeginRecoveryCompensation(env, s, e).s.ledger, actions, rest);
      actions := actions + rest;
    }
  }

  lemma QuarantineActs<W>(s: Sys<W>, e: Entry, error: string) returns (actions: seq<Action>)
    ensures Writes(s.ledger, QuarantineForward(s, e, error).s.ledger, actions)
  {
    hide Writes, MoveAt, DeadLetterRecovery;
    NoWrites(s.ledger);
    OneWrite(s.ledger);
    var moved := MoveAt(s.ledger, e.stepId, MarkAmbiguous, error);
    if e.state != EffectState.Executing {
      actions := LettersActs(s.ledger, e.stepName, error);
    } else if moved.None? {
      actions := [];
    } else {
      var letters := LettersActs(moved.value, e.stepName, error);
      actions := [MoveBy(e.stepId, MarkAmbiguous, error)];
      WritesTrans(s.ledger, moved.value, QuarantineForward(s, e, error).s.ledger, actions, letters);
      actions := actions + letters;
    }
  }

  /** Without idempotent repetition, resolving an interrupted call runs nothing. */
  lemma ResolveRuns<W>(env: Env<W>, s: Sys<W>, e: Entry)
    ensures ResolveForwardEffect(env, s, e).s.ledger == s.ledger && ResolveCompensation(env, s, e).s.ledger == s.ledger
    ensures ResolveCompensation(env, s, e).s.runs == s.runs
    ensures !env.hasReplay ==> ResolveForwardEffect(env, s, e).s.runs == s.runs
  {
  }

  lemma ForwardActs<W>(env: Env<W>, s: Sys<W>, e: Entry) returns (actions: seq<Action>)
    ensures Writes(s.ledger, RecoverForward(env, s, e).s.ledger, actions)
    ensures !env.hasReplay ==> RecoverForward(env, s, e).s.runs == s.runs
  {
    hide Writes, ResolveForwardEffect, BeginRecoveryCompensation, QuarantineForward, MoveAt;
    ResolveRuns(env, s, e);
    var r := ResolveForwardEffect(env, s, e);
    match r.verdict {
      case SaysNotApplied =>
        actions := RecoveryMoveActs(r.s, e.stepId, AbortUnapplied);
      case SaysApplied =>
        actions := RecoveryMoveActs(r.s, e.stepId, ConfirmApplied);
        var t := RecoveryMove(r.s, e.stepId, ConfirmApplied);
        if t.end == Proceed {
          var rest := BeginActs(env, t.s, e);
          WritesTrans(s.ledger, t.s.ledger, RecoverForward(env, s, e).s.ledger, actions, rest);
          actions := actions + rest;
        }
      case SaysUnknown =>
        FailRuns(r.s, e, OUTCOME_UNKNOWN);
        actions := QuarantineActs(r.s, e, OUTCOME_UNKNOWN);
      case ResolverRaised =>
        FailRuns(r.s, e, RESOLVER_FAILED);
        actions := QuarantineActs(r.s, e, RESOLVER_FAILED);
    }
  }

  lemma UndoActs<W>(env: Env<W>, s: Sys<W>, e: Entry) returns (actions: seq<Action>)
    ensures Writes(s.ledger, RecoverUndo(env, s, e).s.ledger, actions)
    ensures RecoverUndo(env, s, e).s.runs == s.runs
  {
    hide Writes, ResolveCompensation, RecoveryCompensation, FailRecoveryCompensation, MoveAt;
    ResolveRuns(env, s, e);
    var r := ResolveCompensation(env, s, e);
    FailRuns(r.s, e, UNDO_UNKNOWN);
    FailRuns(r.s, e, UNDO_RESOLVER_FAILED);
    match r.verdict {
      case SaysApplied => actions := RecoveryMoveActs(r.s, e.stepId, RecordCompensated);
      case SaysNotApplied => actions := RecoveryUndoActs(env, r.s, e);
      case SaysUnknown => actions := FailRecoveryActs(r.s, e, UNDO_UNKNOWN);
      case ResolverRaised => actions := FailRecoveryActs(r.s, e, UNDO_RESOLVER_FAILED);
    }
  }

  lemma RecoverEffectActs<W>(env: Env<W>, s: Sys<W>, e: Entry) returns (actions: seq<Action>)
    ensures Writes(s.ledger, RecoverEffect(env, s, e).s.ledger, actions)
    ensures !env.hasReplay ==> RecoverEffect(env, s, e).s.runs == s.runs
  {
    hide Writes, RecoverForward, RecoverUndo, BeginRecoveryCompensation, MoveAt, DeadLetterRecovery;
    match e.state {
      case Aborted | Compensated =>
        NoWrites(s.ledger);
        actions := [];
      case CompensationFailed =>
        actions := LettersActs(s.ledger, e.stepName, if e.error != "" then e.error else PRIOR_FAILURE);
      case Prepared => actions := RecoveryMoveActs(s, e.stepId, AbortPrepared);
      case Executing | Ambiguous => actions := ForwardActs(env, s, e);
      case Compensating => actions := UndoActs(env, s, e);
      case Applied | Committed => actions := BeginActs(env, s, e);
    }
  }

  lemma {:induction false} RecoverEffectsActs<W>(env: Env<W>, s: Sys<W>, effects: seq<Entry>) returns (actions: seq<Action>)
    ensures Writes(s.ledger, RecoverEffects(env, s, effects).s.ledger, actions)
    ensures !env.hasReplay ==> RecoverEffects(env, s, effects).s.runs == s.runs
    decreases |effects|
  {
    hide Writes, RecoverEffect;
    NoWrites(s.ledger);
    actions := [];
    if effects != [] {
      var e := effects[|effects| - 1];
      actions := RecoverEffectActs(env, s, e);
      var t := RecoverEffect(env, s, e);
      if t.end == Proceed {
        var rest := RecoverEffectsActs(env, t.s, effects[..|effects| - 1]);
        WritesTrans(s.ledger, t.s.ledger, RecoverEffects(env, s, effects).s.ledger, actions, rest);
        actions := actions + rest;
      }
    }
  }

  lemma RecoverActs<W>(env: Env<W>, s: Sys<W>) returns (actions: seq<Action>)
    ensures Writes(s.ledger, Recover(env, s).s.ledger, actions)
    ensures !env.hasReplay ==> Recover(env, s).s.runs == s.runs
  {
    hide Writes, RecoverEffects, DeserializeSteps, CommittedSteps;
    NoWrites(s.ledger);
    OneWrite(s.ledger);
    actions := [];
    var end := Recover(env, s).s.ledger;
    if end != s.ledger {
      if s.ledger.entries == [] {
        actions := [SetStatus(SagaStatus.RolledBack)];
      } else {
        var x := s.(saga := None);
        actions := RecoverEffectsActs(env, x, s.ledger.entries);
        var t := RecoverEffects(env, x, s.ledger.entries);
        if t.end == Proceed {
          OneWrite(t.s.ledger);
          WritesTrans(s.ledger, t.s.ledger, end, actions, [SetStatus(SagaStatus.RolledBack)]);
          actions := actions + [SetStatus(SagaStatus.RolledBack)];
        }
      }
    }
    RecoverRuns(env, s);
  }

  lemma RecoverRuns<W>(env: Env<W>, s: Sys<W>)
    ensures !env.hasReplay ==> Recover(env, s).s.runs == s.runs
  {
    hide RecoverEffects, DeserializeSteps, CommittedSteps, Writes;
    var x := s.(saga := None);
    var actions := RecoverEffectsActs(env, x, s.ledger.entries);
  }

  // ── Whole runs ────────────────────────────────────────────────────

  lemma StartActs<W>(s: Sys<W>, goal: string, tenantId: string, now: real) returns (actions: seq<Action>)
    ensures Writes(s.ledger, Start(s, goal, tenantId, now).s.ledger, actions)
  {
    hide Writes;
    NoWrites(s.ledger);
    actions := [];
    if s.saga.None? {
      var l := WriteStatus(s.ledger, SagaStatus.Running);
      var m := Start(s, goal, tenantId, now).s.ledger;
      OneWrite(s.ledger);
      OneWrite(l);
      assert m == l.(metadata := m.metadata);
      WritesTrans(s.ledger, l, m, [SetStatus(SagaStatus.Running)], [SetMetadata(m.metadata)]);
      actions := [SetStatus(SagaStatus.Running)] + [SetMetadata(m.metadata)];
    }
  }

  /** Setting a status and clearing the pending steps. */
  lemma StatusActs(l: Ledger, status: SagaStatus) returns (actions: seq<Action>)
    ensures var m := WriteStatus(l, status);
      Writes(l, m.(metadata := m.metadata.(pendingSteps := [])), actions)
  {
    hide Writes;
    var m := WriteStatus(l, status);
    var metadata := m.metadata.(pendingSteps := []);
    OneWrite(l);
    OneWrite(m);
    WritesTrans(l, m, m.(metadata := metadata), [SetStatus(status)], [SetMetadata(metadata)]);
    actions := [SetStatus(status)] + [SetMetadata(metadata)];
  }

  lemma ResumeActs<W>(env: Env<W>, s: Sys<W>, w: nat) returns (calls: seq<Entry>, actions: seq<Action>)
    ensures Works(s.ledger, Resume(env, s).s.ledger, w, calls, actions)
    ensures Resume(env, s).s.runs <= s.runs + Ids(calls)
  {
    hide Writes, Works, ExecuteSteps;
    NoWrites(s.ledger);
    WritesWork(s.ledger, s.ledger, w, []);
    calls, actions := [], [];
    if s.saga.Some? && s.saga.value.status == SagaStatus.AwaitingApproval && s.saga.value.pendingSteps != [] {
      var pending := s.saga.value.pendingSteps;
      var saga := s.saga.value.(pendingSteps := [], status := SagaStatus.Running);
      var l := WriteStatus(s.ledger, SagaStatus.Running);
      var x := s.(saga := Some(saga), ledger := l.(metadata := l.metadata.(pendingSteps := [])));
      var first := StatusActs(s.ledger, SagaStatus.Running);
      WritesWork(s.ledger, x.ledger, w, first);
      var made, rest := ExecuteActs(env, x, pending[0 := pending[0].(approved := true)], w);
      WorksTrans(s.ledger, x.ledger, Resume(env, s).s.ledger, w, [], made, first, rest);
      calls, actions := [] + made, first + rest;
      assert calls == made;
    }
  }

  lemma RejectActs<W>(env: Env<W>, s: Sys<W>) returns (actions: seq<Action>)
    ensures Writes(s.ledger, Reject(env, s).s.ledger, actions)
    ensures Reject(env, s).s.runs == s.runs
  {
    hide Writes, CompensateAll, QuietLedger;
    NoWrites(s.ledger);
    actions := [];
    if s.saga.Some? && s.saga.value.status == SagaStatus.AwaitingApproval {
      var saga := s.saga.value.(pendingSteps := []);
      var l := WriteStatus(s.ledger, SagaStatus.Compensating);
      var x := s.(saga := Some(saga), ledger := l.(metadata := l.metadata.(pendingSteps := [])));
      var first := StatusActs(s.ledger, SagaStatus.Compensating);
      CompensateAllQuiet(env, WithStatus(x, SagaStatus.Compensating), saga.completedSteps);
      var rest := RollBackActs(env, x, saga.completedSteps);
      WritesTrans(s.ledger, x.ledger, Reject(env, s).s.ledger, first, rest);
      actions := first + rest;
    }
  }

  /** Every operation of the coordinator is a sequence of actions, and what it runs are its calls. */
  lemma PerformActs<W>(env: Env<W>, s: Sys<W>, op: Operation, w: nat) returns (calls: seq<Entry>, actions: seq<Action>)
    ensures Works(s.ledger, Perform(env, s, op).s.ledger, w, calls, actions)
    ensures !env.hasReplay ==> Perform(env, s, op).s.runs <= s.runs + Ids(calls)
  {
    hide Writes, Works, ExecuteSteps, Resume, Reject, Recover, Start;
    calls := [];
    match op {
      case StartOp(goal, tenantId, now) =>
        StartRuns(s, goal, tenantId, now);
        actions := StartActs(s, goal, tenantId, now);
        WritesWork(s.ledger, Perform(env, s, op).s.ledger, w, actions);
      case ExecuteOp(steps) =>
        if s.saga.Some? {
          calls, actions := ExecuteActs(env, s, steps, w);
        } else {
          NoWrites(s.ledger);
          actions := [];
          WritesWork(s.ledger, s.ledger, w, actions);
        }
      case ResumeOp => calls, actions := ResumeActs(env, s, w);
      case RejectOp =>
        actions := RejectActs(env, s);
        WritesWork(s.ledger, Perform(env, s, op).s.ledger, w, actions);
      case RestartOp =>
        actions := RecoverActs(env, s);
        WritesWork(s.ledger, Perform(env, s, op).s.ledger, w, actions);
    }
  }

  lemma StartRuns<W>(s: Sys<W>, goal: string, tenantId: string, now: real)
    ensures Start(s, goal, tenantId, now).s.runs == s.runs
  {
  }

  /** So is every run, with any crashes. */
  lemma {:induction false} RunActs<W>(env: Env<W>, s: Sys<W>, ops: seq<Operation>, w: nat)
    returns (calls: seq<Entry>, actions: seq<Action>)
    ensures Works(s.ledger, Run(env, s, ops).ledger, w, calls, actions)
    ensures !env.hasReplay ==> Run(env, s, ops).runs <= s.runs + Ids(calls)
    decreases |ops|
  {
    hide Writes, Works, Perform;
    if ops == [] {
      NoWrites(s.ledger);
      calls, actions := [], [];
      WritesWork(s.ledger, s.ledger, w, actions);
    } else {
      calls, actions := PerformActs(env, s, ops[0], w);
      var s1 := AfterTurn(Perform(env, s, ops[0]));
      var more, rest := RunActs(env, s1, ops[1..], w);
      WorksTrans(s.ledger, s1.ledger, Run(env, s, ops).ledger, w, calls, more, actions, rest);
      calls, actions := calls + more, actions + rest;
    }
  }

  lemma {:induction false} DistinctOnce(calls: seq<Entry>, id: string)
    requires forall j, k | 0 <= j < k < |calls| :: calls[j].stepId != calls[k].stepId
    ensures Ids(calls)[id] <= 1
    ensures Ids(calls)[id] > 0 ==> exists k :: 0 <= k < |calls| && calls[k].stepId == id
  {
    if calls != [] {
      var rest := calls[1..];
      DistinctOnce(rest, id);
      if Ids(rest)[id] > 0 {
        var k :| 0 <= k < |rest| && rest[k].stepId == id;
        assert calls[k + 1].stepId == id;
      }
      if calls[0].stepId == id {
        assert calls[0].stepId == id;
      }
    }
  }

  /**
   The coordinator's own runs, as instances of the interleavings: in any environment without
   idempotent repetition, with any crashes, restarts and resubmissions, the action of a step takes
   effect at most once, and the journal holds it.
   */
  lemma EffectsAtMostOnce<W>(env: Env<W>, s: Sys<W>, ops: seq<Operation>, id: string)
    requires s.runs == multiset{} && !env.hasReplay
    ensures Run(env, s, ops).runs[id] <= 1
    ensures Run(env, s, ops).runs[id] == 1 ==>
      exists i :: 0 <= i < |Run(env, s, ops).ledger.entries| && Run(env, s, ops).ledger.entries[i].stepId == id
  {
    hide Run, ApplyAll, Ids, Holds, Works;
    var calls, actions := RunActs(env, s, ops, 0);
    var l := Run(env, s, ops).ledger;
    FromScratch(s.ledger, l, 0, calls, actions);
    AtMostOneCallPerStep(s.ledger, actions);
    var end := ApplyAll(State(s.ledger, map[], []), actions);
    assert end.calls == calls && end.ledger == l;
    DistinctOnce(calls, id);
    if Run(env, s, ops).runs[id] == 1 {
      var k :| 0 <= k < |calls| && calls[k].stepId == id;
      HeldIsThere(l.entries, calls[k]);
    }
  }

  lemma FromScratch(l: Ledger, l': Ledger, w: nat, calls: seq<Entry>, actions: seq<Action>)
    requires Works(l, l', w, calls, actions)
    ensures ApplyAll(State(l, map[], []), actions) == State(l', map[], calls)
  {
    hide ApplyAll;
    var st := State(l, map[], []);
    assert ApplyAll(AtStage(st, w, None), actions) == AtStage(st, w, None).(ledger := l', calls := st.calls + calls);
    assert [] + calls == calls;
  }

  lemma HeldIsThere(entries: seq<Entry>, e: Entry)
    requires Holds(entries, e)
    ensures exists i :: 0 <= i < |entries| && entries[i].stepId == e.stepId
  {
  }
}
