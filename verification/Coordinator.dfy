/**
 The coordinator in its own form: objects whose methods update the store, the in-memory
 transactions and the world in place. Each method computes exactly what its counterpart in
 CoordinatorSpec says, for one saga, and leaves every other saga as it was.
 */
module Coordinator {
  import opened Prelude
  import opened Sagas
  import opened Journal
  import opened StepCodec
  import opened Environment
  import opened CoordinatorSpec
  import opened StateStore

  /** The tools, the verification gate, the resolvers and the fault injector, with the world they act on. */
  class Sandbox<W> {
    const env: Env<W>
    var world: W
    var clock: nat
    var runs: map<string, multiset<string>>   // what the outside remembers of the calls it carried out
    var undos: map<string, multiset<string>>

    constructor (env: Env<W>, world: W)
      ensures this.env == env && this.world == world && clock == 0 && runs == map[] && undos == map[]
    {
      this.env, this.world, clock, runs, undos := env, world, 0, map[], map[];
    }

    /** `_checkpoint`: whether the process dies here. */
    method Checkpoint() returns (crash: bool)
      modifies this`clock
      ensures crash == old(env.choice(clock).crash) && clock == old(clock) + 1
    {
      crash := env.choice(clock).crash;
      clock := clock + 1;
    }

    /** The verification gate followed by the sandbox's own validation. */
    method Admits() returns (ok: bool)
      modifies this`clock
      ensures ok == old(env.choice(clock).gate == Admit && env.choice(clock).preflight) && clock == old(clock) + 1
    {
      ok := env.choice(clock).gate == Admit && env.choice(clock).preflight;
      clock := clock + 1;
    }

    method Execute(sagaId: string, stepId: string, action: ActionPayload) returns (reply: Reply)
      modifies this
      ensures var c, target := old(env.choice(clock).call), env.act(action, old(world));
        && reply == ReplyOf(c, target, env.refusalRaises) && clock == old(clock) + 1 && undos == old(undos)
        && if TakesEffect(c, target)
           then world == target.value
                && runs == old(runs)[sagaId := Lookup(old(runs), sagaId, multiset{}) + multiset{stepId}]
           else world == old(world) && runs == old(runs)
    {
      var c, target := env.choice(clock).call, env.act(action, world);
      reply := ReplyOf(c, target, env.refusalRaises);
      clock := clock + 1;
      if TakesEffect(c, target) {
        world := target.value;
        runs := runs[sagaId := Lookup(runs, sagaId, multiset{}) + multiset{stepId}];
      }
    }

    method ExecuteCompensation(sagaId: string, stepId: string, compensation: ActionPayload)
      returns (reply: Reply)
      modifies this
      ensures var c, target := old(env.choice(clock).undoCall), env.undo(compensation, old(world));
        && reply == ReplyOf(c, target, false) && clock == old(clock) + 1 && runs == old(runs)
        && if TakesEffect(c, target)
           then world == target.value
                && undos == old(undos)[sagaId := Lookup(old(undos), sagaId, multiset{}) + multiset{stepId}]
           else world == old(world) && undos == old(undos)
    {
      var c, target := env.choice(clock).undoCall, env.undo(compensation, world);
      reply := ReplyOf(c, target, false);
      clock := clock + 1;
      if TakesEffect(c, target) {
        world := target.value;
        undos := undos[sagaId := Lookup(undos, sagaId, multiset{}) + multiset{stepId}];
      }
    }

    /** The effect is in force, as far as the outside remembers. */
    predicate Holds(sagaId: string, stepId: string)
      reads this
    {
      Lookup(runs, sagaId, multiset{})[stepId] > Lookup(undos, sagaId, multiset{})[stepId]
    }

    /** The resolver for an interrupted forward call, or in its absence the idempotent repetition of the call. */
    method ResolveEffect(sagaId: string, e: Entry) returns (verdict: Resolution)
      modifies this
      ensures undos == old(undos)
      ensures if env.hasResolver then
          && verdict == ResolverReply(old(env.choice(clock).resolver), old(Holds(sagaId, e.stepId)))
          && clock == old(clock) + 1 && world == old(world) && runs == old(runs)
        else if Keyed(e.idempotencyKey) && env.hasReplay then
          var c := old(env.choice(clock).call);
          var held := old(Holds(sagaId, e.stepId));
          var target := if held then Some(old(world)) else env.act(e.action, old(world));
          && verdict == (match ReplyOf(c, target, env.refusalRaises)
                         case Succeeded => SaysApplied
                         case Refused => SaysUnknown
                         case Raised => ResolverRaised)
          && clock == old(clock) + 1
          && (if !held && TakesEffect(c, target)
              then world == target.value
                   && runs == old(runs)[sagaId := Lookup(old(runs), sagaId, multiset{}) + multiset{e.stepId}]
              else world == old(world) && runs == old(runs))
        else
          verdict == SaysUnknown && clock == old(clock) && world == old(world) && runs == old(runs)
    {
      if env.hasResolver {
        verdict := ResolverReply(env.choice(clock).resolver, Holds(sagaId, e.stepId));
        clock := clock + 1;
      } else if Keyed(e.idempotencyKey) && env.hasReplay {
        var reply;
        if Holds(sagaId, e.stepId) {
          reply := ReplyOf(env.choice(clock).call, Some(world), env.refusalRaises);
          clock := clock + 1;
        } else {
          reply := Execute(sagaId, e.stepId, e.action);
        }
        verdict := match reply
          case Succeeded => SaysApplied
          case Refused => SaysUnknown
          case Raised => ResolverRaised;
      } else {
        verdict := SaysUnknown;
      }
    }

    method ResolveCompensation(sagaId: string, e: Entry) returns (verdict: Resolution)
      modifies this`clock
      ensures if env.hasResolver
        then verdict == ResolverReply(old(env.choice(clock).resolver), !Holds(sagaId, e.stepId)) && clock == old(clock) + 1
        else verdict == SaysUnknown && clock == old(clock)
    {
      if env.hasResolver {
        verdict := ResolverReply(env.choice(clock).resolver, !Holds(sagaId, e.stepId));
        clock := clock + 1;
      } else {
        verdict := SaysUnknown;
      }
    }
  }

  /** What one saga owns, before or after its recovery. */
  datatype Holdings = Holdings(
    ledger: Ledger, saga: Option<SagaTransaction>, runs: multiset<string>, undos: multiset<string>)

  ghost function HoldingsOf<W>(s: Sys<W>): Holdings {
    Holdings(s.ledger, s.saga, s.runs, s.undos)
  }

  /** The world and the clock at some instant. */
  datatype Station<W> = Station(world: W, clock: nat)

  /** Recovery of this saga, begun at one instant, took its holdings from one to the other and ended so at another. */
  ghost predicate Recovered<W>(
    env: Env<W>, before: Holdings, from: Station<W>, after: Holdings, to: Station<W>, end: End)
  {
    var t := Recover(env, Sys(before.ledger, before.saga, from.world, from.clock, before.runs, before.undos));
    t.end == end && HoldingsOf(t.s) == after && Station(t.s.world, t.s.clock) == to
  }

  /** One saga's turn in a recovery of many. */
  datatype Visit<W> = Visit(
    sagaId: string, before: Holdings, from: Station<W>, after: Holdings, to: Station<W>, end: End)

  /** The visits follow each other in one world, from one instant to another, and each is a recovery of its saga. */
  ghost predicate InTurn<W>(env: Env<W>, log: seq<Visit<W>>, start: Station<W>, now: Station<W>)
    decreases |log|
  {
    if log == [] then now == start
    else
      var v := log[|log| - 1];
      && v.to == now && Recovered(env, v.before, v.from, v.after, v.to, v.end)
      && v.end in {Paused, Denied, Restored, Crashed, Quarantined}
      && (v.end == Restored <==> v.after.ledger.status == Some(SagaStatus.RolledBack))
      && InTurn(env, log[..|log| - 1], start, v.from)
  }

  /** Only the last visit may have been stopped by a crash or a lost compare-and-set. */
  ghost predicate StoppedLast<W>(log: seq<Visit<W>>, end: End) {
    && (forall k | 0 <= k < |log| - 1 :: log[k].end !in {Crashed, Denied})
    && end == if log != [] && log[|log| - 1].end in {Crashed, Denied} then log[|log| - 1].end else Proceed
  }

  function CountRestored<W>(log: seq<Visit<W>>): nat {
    if log == [] then 0 else CountRestored(log[..|log| - 1]) + if log[|log| - 1].end == Restored then 1 else 0
  }

  function Visited<W>(log: seq<Visit<W>>): seq<string> {
    seq(|log|, k requires 0 <= k < |log| => log[k].sagaId)
  }

  lemma LogExtends<W>(env: Env<W>, log: seq<Visit<W>>, start: Station<W>, v: Visit<W>)
    requires InTurn(env, log, start, v.from) && StoppedLast(log, Proceed)
    requires Recovered(env, v.before, v.from, v.after, v.to, v.end)
    requires v.end in {Paused, Denied, Restored, Crashed, Quarantined}
    requires v.end == Restored <==> v.after.ledger.status == Some(SagaStatus.RolledBack)
    ensures var log' := log + [v];
      && InTurn(env, log', start, v.to)
      && StoppedLast(log', if v.end in {Crashed, Denied} then v.end else Proceed)
      && CountRestored(log') == CountRestored(log) + (if v.end == Restored then 1 else 0)
      && Visited(log') == Visited(log) + [v.sagaId]
  {
    var log' := log + [v];
    assert log'[..|log|] == log;
    hide Recovered;
  }

  class SagaTransactionCoordinator<W(!new)> {
    const db: SagaStateStore
    const sandbox: Sandbox<W>
    var activeSagas: map<string, SagaTransaction>

    constructor (db: SagaStateStore, sandbox: Sandbox<W>)
      ensures this.db == db && this.sandbox == sandbox && activeSagas == map[]
    {
      this.db, this.sandbox, activeSagas := db, sandbox, map[];
    }

    /** One saga and its surroundings, as CoordinatorSpec sees them. */
    ghost function View(sagaId: string): Sys<W>
      reads this, db, sandbox
    {
      Sys(db.LedgerOf(sagaId),
          if sagaId in activeSagas then Some(activeSagas[sagaId]) else None,
          sandbox.world,
          sandbox.clock,
          Lookup(sandbox.runs, sagaId, multiset{}),
          Lookup(sandbox.undos, sagaId, multiset{}))
    }

    /** What belongs to one saga alone. */
    ghost function Own(sagaId: string): Holdings
      reads this, db, sandbox
    {
      HoldingsOf(View(sagaId))
    }

    ghost function Now(): Station<W>
      reads sandbox
    {
      Station(sandbox.world, sandbox.clock)
    }

    ghost function env(): Env<W> {
      sandbox.env
    }

    // ── Calls to the outside ────────────────────────────────────────

    /** `_checkpoint`. */
    method Checkpoint(ghost sagaId: string) returns (crash: bool)
      modifies sandbox`clock
      ensures crash == CrashesHere(env(), old(View(sagaId))) && View(sagaId) == Tick(old(View(sagaId)))
      ensures forall other | other != sagaId :: Own(other) == old(Own(other))
    {
      crash := sandbox.Checkpoint();
    }

    method CallForward(sagaId: string, step: SagaStep) returns (reply: Reply)
      modifies sandbox
      ensures Answer(reply, View(sagaId)) == Environment.Execute(env(), old(View(sagaId)), step.stepId, step.action)
      ensures forall other | other != sagaId :: Own(other) == old(Own(other))
    {
      hide ReplyOf, TakesEffect, SagaStateStore.LedgerOf;
      reply := sandbox.Execute(sagaId, step.stepId, step.action);
    }

    method CallUndo(sagaId: string, stepId: string, compensation: ActionPayload) returns (reply: Reply)
      modifies sandbox
      ensures Answer(reply, View(sagaId)) ==
        Environment.ExecuteCompensation(env(), old(View(sagaId)), stepId, compensation)
      ensures forall other | other != sagaId :: Own(other) == old(Own(other))
    {
      hide ReplyOf, TakesEffect, SagaStateStore.LedgerOf;
      reply := sandbox.ExecuteCompensation(sagaId, stepId, compensation);
      assert forall id :: db.LedgerOf(id) == old(db.LedgerOf(id));
      assert forall id :: Lookup(sandbox.runs, id, multiset{}) == old(Lookup(sandbox.runs, id, multiset{}));
      assert forall other | other != sagaId ::
        Lookup(sandbox.undos, other, multiset{}) == old(Lookup(sandbox.undos, other, multiset{}));
    }

    /** A compare-and-set of this saga's journal. */
    method Move(sagaId: string, stepId: string, site: Site, error: string) returns (ok: bool)
      requires db.Valid()
      modifies db
      ensures db.Valid()
      ensures var moved := Journal.MoveAt(old(View(sagaId)).ledger, stepId, site, error);
        && ok == moved.Some?
        && View(sagaId) == old(View(sagaId)).(ledger := moved.GetOr(old(View(sagaId)).ledger))
      ensures forall other | other != sagaId :: Own(other) == old(Own(other))
    {
      hide Journal.MoveAt;
      ok := db.MoveAt(sagaId, stepId, site, error);
    }

    // ── Rollback ────────────────────────────────────────────────────

    method SetMemoryStatus(sagaId: string, status: SagaStatus)
      modifies this
      ensures View(sagaId) == WithMemoryStatus(old(View(sagaId)), status)
      ensures forall other | other != sagaId :: Own(other) == old(Own(other))
    {
      if sagaId in activeSagas {
        activeSagas := activeSagas[sagaId := activeSagas[sagaId].(status := status)];
      }
    }

    method HandleCompensationFailure(sagaId: string, step: SagaStep) returns (end: End)
      requires db.Valid()
      modifies this, db
      ensures db.Valid()
      ensures Turn(View(sagaId), end) == CoordinatorSpec.HandleCompensationFailure(old(View(sagaId)), step)
      ensures forall other | other != sagaId :: Own(other) == old(Own(other))
    {
      hide Journal.MoveAt;
      SetMemoryStatus(sagaId, SagaStatus.CompensationFailed);
      db.WriteTransactionState(sagaId, SagaStatus.CompensationFailed, NOTHING);
      var _ := db.MoveAt(sagaId, step.stepId, FailCompensation, UNDO_FAILED);
      db.PushDeadLetter(sagaId, step.stepName, UNDO_FAILED);
      end := RollbackFailed;
    }

    /** One iteration of the rollback loop. */
    method CompensateStep(sagaId: string, step: SagaStep) returns (end: End)
      requires db.Valid()
      modifies this, db, sandbox
      ensures db.Valid()
      ensures Turn(View(sagaId), end) == CoordinatorSpec.CompensateStep(env(), old(View(sagaId)), step)
      ensures forall other | other != sagaId :: Own(other) == old(Own(other))
    {
      hide IndexOf, Journal.MoveAt, CoordinatorSpec.HandleCompensationFailure, CoordinatorSpec.CompensationCall;
      var entries := Lookup(db.effects, sagaId, []);
      var i := db.FindEffect(sagaId, step.stepId);
      if i == |entries| {
        end := HandleCompensationFailure(sagaId, step);
        return;
      }
      var marked := Move(sagaId, step.stepId, BeginCompensation, "");
      if !marked && entries[i].state != EffectState.Compensating {
        end := HandleCompensationFailure(sagaId, step);
        return;
      }
      end := CompensationCall(sagaId, step);
    }

    method CompensationCall(sagaId: string, step: SagaStep) returns (end: End)
      requires db.Valid()
      modifies this, db, sandbox
      ensures db.Valid()
      ensures Turn(View(sagaId), end) == CoordinatorSpec.CompensationCall(env(), old(View(sagaId)), step)
      ensures forall other | other != sagaId :: Own(other) == old(Own(other))
    {
      hide Journal.MoveAt, CoordinatorSpec.HandleCompensationFailure, Environment.ExecuteCompensation;
      var crash := Checkpoint(sagaId);
      if crash {
        return Crashed;
      }
      var reply := CallUndo(sagaId, step.stepId, step.compensation);
      if reply == Raised {
        end := HandleCompensationFailure(sagaId, step);
        return;
      }
      crash := Checkpoint(sagaId);
      if crash {
        return Crashed;
      }
      if reply == Refused {
        end := HandleCompensationFailure(sagaId, step);
        return;
      }
      var recorded := Move(sagaId, step.stepId, RecordCompensated, "");
      if !recorded {
        end := HandleCompensationFailure(sagaId, step);
        return;
      }
      crash := Checkpoint(sagaId);
      return if crash then Crashed else Proceed;
    }

    /** Compensations in reverse order of completion. */
    method ExecuteCompensations(sagaId: string, completedSteps: seq<SagaStep>) returns (end: End)
      requires db.Valid()
      modifies this, db, sandbox
      ensures db.Valid()
      ensures Turn(View(sagaId), end) == RollBack(env(), old(View(sagaId)), completedSteps)
      ensures forall other | other != sagaId :: Own(other) == old(Own(other))
    {
      hide CoordinatorSpec.CompensateStep;
      db.WriteTransactionState(sagaId, SagaStatus.Compensating, NOTHING);
      ghost var start := View(sagaId);
      assert completedSteps[..|completedSteps|] == completedSteps;
      var i := |completedSteps|;
      while i > 0
        invariant 0 <= i <= |completedSteps|
        invariant db.Valid()
        invariant CompensateAll(env(), View(sagaId), completedSteps[..i]) == CompensateAll(env(), start, completedSteps)
        invariant forall other | other != sagaId :: Own(other) == old(Own(other))
      {
        i := i - 1;
        assert completedSteps[..i + 1][..i] == completedSteps[..i];
        end := CompensateStep(sagaId, completedSteps[i]);
        if end != Proceed {
          return;
        }
      }
      SetMemoryStatus(sagaId, SagaStatus.RolledBack);
      db.WriteTransactionState(sagaId, SagaStatus.RolledBack, NOTHING);
      end := Restored;
    }

    // ── Forward execution ───────────────────────────────────────────

    method DeadLetterRecovery(sagaId: string, stepName: string, error: string)
      requires db.Valid()
      modifies db
      ensures db.Valid()
      ensures var was := old(View(sagaId));
        View(sagaId) == was.(ledger := CoordinatorSpec.DeadLetterRecovery(was.ledger, stepName, error))
      ensures forall other | other != sagaId :: Own(other) == old(Own(other))
    {
      db.WriteTransactionState(sagaId, SagaStatus.CompensationFailed, NOTHING);
      db.PushDeadLetter(sagaId, stepName, error);
    }

    /** The exception handler of the step loop. */
    method HandleStepFailure(sagaId: string, step: SagaStep, executionAmbiguous: bool) returns (end: End)
      requires db.Valid() && sagaId in activeSagas
      modifies this, db, sandbox
      ensures db.Valid()
      ensures Turn(View(sagaId), end) ==
        if executionAmbiguous then AbandonAmbiguous(env(), old(View(sagaId)), step)
        else Abandon(env(), old(View(sagaId)))
      ensures forall other | other != sagaId :: Own(other) == old(Own(other))
    {
      hide RollBack, Journal.MoveAt, CoordinatorSpec.DeadLetterRecovery;
      end := ExecuteCompensations(sagaId, activeSagas[sagaId].completedSteps);
      if end == Crashed || !executionAmbiguous {
        return;
      }
      var _ := Move(sagaId, step.stepId, RecordRaised, CALL_RAISED);
      DeadLetterRecovery(sagaId, step.stepName, CALL_RAISED);
      end := Quarantined;
    }

    method AppendCompleted(sagaId: string, step: SagaStep)
      requires sagaId in activeSagas
      modifies this
      ensures sagaId in activeSagas
      ensures View(sagaId) == CoordinatorSpec.AppendCompleted(old(View(sagaId)), step)
      ensures forall other | other != sagaId :: Own(other) == old(Own(other))
    {
      var saga := activeSagas[sagaId];
      activeSagas := activeSagas[sagaId :=
        saga.(completedSteps := saga.completedSteps + [step.(status := COMMITTED)])];
    }

    method CommitEffect(sagaId: string, step: SagaStep) returns (ok: bool)
      requires db.Valid()
      modifies db
      ensures db.Valid()
      ensures var r := Journal.CommitEffect(old(View(sagaId)).ledger, step.stepId, step.idempotencyKey);
        && ok == r.Some?
        && View(sagaId) == old(View(sagaId)).(ledger := r.GetOr(old(View(sagaId)).ledger))
      ensures forall other | other != sagaId :: Own(other) == old(Own(other))
    {
      hide Journal.CommitEffect;
      ok := db.CommitEffect(sagaId, step.stepId, step.idempotencyKey);
    }

    method PrepareEffect(sagaId: string, step: SagaStep) returns (ok: bool)
      requires db.Valid()
      modifies db
      ensures db.Valid()
      ensures var r := Journal.PrepareEffect(old(View(sagaId)).ledger, step);
        && ok == r.Some?
        && View(sagaId) == old(View(sagaId)).(ledger := r.GetOr(old(View(sagaId)).ledger))
      ensures forall other | other != sagaId :: Own(other) == old(Own(other))
    {
      hide Journal.PrepareEffect;
      ok := db.PrepareEffect(sagaId, step);
    }

    /** After a call that reported success. */
    method RecordStep(sagaId: string, step: SagaStep) returns (end: End)
      requires db.Valid() && sagaId in activeSagas
      modifies this, db, sandbox
      ensures db.Valid()
      ensures Turn(View(sagaId), end) == CoordinatorSpec.RecordStep(env(), old(View(sagaId)), step)
      ensures forall other | other != sagaId :: Own(other) == old(Own(other))
    {
      hide Journal.MoveAt, Journal.CommitEffect, Abandon, AbandonAmbiguous, CoordinatorSpec.AppendCompleted;
      var ok := Move(sagaId, step.stepId, RecordApplied, "");
      if !ok {
        end := HandleStepFailure(sagaId, step, true);
        return;
      }
      var crash := Checkpoint(sagaId);
      if crash {
        return Crashed;
      }
      AppendCompleted(sagaId, step);
      ok := CommitEffect(sagaId, step);
      if !ok {
        end := HandleStepFailure(sagaId, step, false);
        return;
      }
      crash := Checkpoint(sagaId);
      return if crash then Crashed else Proceed;
    }

    /** The external call of a claimed step. */
    method CallStep(sagaId: string, step: SagaStep) returns (end: End)
      requires db.Valid() && sagaId in activeSagas
      modifies this, db, sandbox
      ensures db.Valid()
      ensures Turn(View(sagaId), end) == CoordinatorSpec.CallStep(env(), old(View(sagaId)), step)
      ensures forall other | other != sagaId :: Own(other) == old(Own(other))
    {
      hide Journal.MoveAt, Abandon, AbandonAmbiguous, CoordinatorSpec.RecordStep, ReplyOf, TakesEffect;
      var crash := Checkpoint(sagaId);
      if crash {
        return Crashed;
      }
      var reply := CallForward(sagaId, step);
      if reply == Raised {
        end := HandleStepFailure(sagaId, step, true);
        return;
      }
      crash := Checkpoint(sagaId);
      if crash {
        return Crashed;
      }
      if reply == Refused {
        var aborted := Move(sagaId, step.stepId, RejectCall, CALL_FAILED);
        end := HandleStepFailure(sagaId, step, !aborted);
        return;
      }
      end := RecordStep(sagaId, step);
    }

    /** Write-ahead registration and claim of an admitted step. */
    method PrepareStep(sagaId: string, step: SagaStep) returns (end: End)
      requires db.Valid() && sagaId in activeSagas
      modifies this, db, sandbox
      ensures db.Valid()
      ensures Turn(View(sagaId), end) == CoordinatorSpec.PrepareStep(env(), old(View(sagaId)), step)
      ensures forall other | other != sagaId :: Own(other) == old(Own(other))
    {
      hide Journal.MoveAt, Journal.PrepareEffect, Abandon, CoordinatorSpec.CallStep;
      var ok := PrepareEffect(sagaId, step);
      if !ok {
        end := HandleStepFailure(sagaId, step, false);
        return;
      }
      var crash := Checkpoint(sagaId);
      if crash {
        return Crashed;
      }
      ok := Move(sagaId, step.stepId, Claim, "");
      if !ok {
        end := HandleStepFailure(sagaId, step, false);
        return;
      }
      end := CallStep(sagaId, step);
    }

    /** The approval gate: `steps` wait, beginning with the one that needs approval. */
    method Pause(sagaId: string, steps: seq<SagaStep>)
      requires db.Valid() && sagaId in activeSagas && steps != []
      modifies this, db
      ensures db.Valid()
      ensures Turn(View(sagaId), Paused) == CoordinatorSpec.Pause(old(View(sagaId)), steps)
      ensures forall other | other != sagaId :: Own(other) == old(Own(other))
    {
      hide SerializeSteps;
      var pending := [steps[0].(status := AWAITING_APPROVAL)] + steps[1..];
      var saga := activeSagas[sagaId].(status := SagaStatus.AwaitingApproval, pendingSteps := pending);
      activeSagas := activeSagas[sagaId := saga];
      db.WriteTransactionState(sagaId, SagaStatus.AwaitingApproval,
                               Patch(None, None, Some(SerializeSteps(pending)), Some(saga.startTime)));
    }

    /** The step loop. */
    method ExecuteSaga(sagaId: string, steps: seq<SagaStep>) returns (end: End)
      requires db.Valid()
      modifies this, db, sandbox
      ensures db.Valid()
      ensures Turn(View(sagaId), end) == CoordinatorSpec.ExecuteSaga(env(), old(View(sagaId)), steps)
      ensures forall other | other != sagaId :: Own(other) == old(Own(other))
    {
      hide CoordinatorSpec.AttemptStep, AlreadyCommitted;
      if sagaId !in activeSagas {
        return Denied;
      }
      ghost var start := View(sagaId);
      var i := 0;
      while i < |steps|
        invariant 0 <= i <= |steps|
        invariant db.Valid() && sagaId in activeSagas
        invariant ExecuteSteps(env(), View(sagaId), steps[i..]) == ExecuteSteps(env(), start, steps)
        invariant forall other | other != sagaId :: Own(other) == old(Own(other))
      {
        var step := steps[i];
        assert steps[i..][0] == step && steps[i..][1..] == steps[i + 1..];
        var done := db.StepAlreadyCommitted(sagaId, step.idempotencyKey);
        if done {
          i := i + 1;
          continue;
        }
        ghost var before := View(sagaId);
        end := AttemptStep(sagaId, steps[i..]);
        assert Turn(View(sagaId), end) == CoordinatorSpec.AttemptStep(env(), before, steps[i..]);
        if end != Proceed {
          return;
        }
        i := i + 1;
      }
      SetMemoryStatus(sagaId, SagaStatus.Committed);
      db.WriteTransactionState(sagaId, SagaStatus.Committed, NOTHING);
      end := AllCommitted;
    }

    /** One iteration of the step loop, for the head of the remaining steps. */
    method AttemptStep(sagaId: string, steps: seq<SagaStep>) returns (end: End)
      requires db.Valid() && sagaId in activeSagas && steps != []
      modifies this, db, sandbox
      ensures db.Valid() && sagaId in activeSagas
      ensures Turn(View(sagaId), end) == CoordinatorSpec.AttemptStep(env(), old(View(sagaId)), steps)
      ensures forall other | other != sagaId :: Own(other) == old(Own(other))
    {
      hide Abandon, CoordinatorSpec.PrepareStep, CoordinatorSpec.Pause;
      var admitted := sandbox.Admits();
      assert View(sagaId) == Tick(old(View(sagaId)));
      if !admitted {
        end := HandleStepFailure(sagaId, steps[0], false);
      } else if steps[0].requiresApproval && !steps[0].approved {
        Pause(sagaId, steps);
        end := Paused;
      } else {
        end := PrepareStep(sagaId, steps[0]);
      }
      assert View(sagaId).saga.Some?;
    }

    // ── Lifecycle and approval ──────────────────────────────────────

    method StartTransactionLog(sagaId: string, goal: string, tenantId: string, now: real) returns (end: End)
      requires db.Valid()
      modifies this, db
      ensures db.Valid()
      ensures Turn(View(sagaId), end) == Start(old(View(sagaId)), goal, tenantId, now)
      ensures forall other | other != sagaId :: Own(other) == old(Own(other))
    {
      if sagaId in activeSagas {
        return Denied;
      }
      activeSagas := activeSagas[sagaId := SagaTransaction(tenantId, goal, SagaStatus.Running, now, [], [])];
      db.WriteTransactionState(sagaId, SagaStatus.Running, Patch(Some(tenantId), Some(goal), None, None));
      end := Proceed;
    }

    method ResumeAfterApproval(sagaId: string) returns (end: End)
      requires db.Valid()
      modifies this, db, sandbox
      ensures db.Valid()
      ensures Turn(View(sagaId), end) == Resume(env(), old(View(sagaId)))
      ensures forall other | other != sagaId :: Own(other) == old(Own(other))
    {
      hide ExecuteSteps;
      if sagaId !in activeSagas {
        return Denied;
      }
      var saga := activeSagas[sagaId];
      if saga.status != SagaStatus.AwaitingApproval || saga.pendingSteps == [] {
        return Denied;
      }
      var pending := saga.pendingSteps[0 := saga.pendingSteps[0].(approved := true)];
      activeSagas := activeSagas[sagaId := saga.(pendingSteps := [], status := SagaStatus.Running)];
      db.WriteTransactionState(sagaId, SagaStatus.Running, Patch(None, None, Some([]), None));
      end := ExecuteSaga(sagaId, pending);
    }

    method RejectPending(sagaId: string) returns (end: End)
      requires db.Valid()
      modifies this, db, sandbox
      ensures db.Valid()
      ensures Turn(View(sagaId), end) == Reject(env(), old(View(sagaId)))
      ensures forall other | other != sagaId :: Own(other) == old(Own(other))
    {
      hide RollBack;
      if sagaId !in activeSagas || activeSagas[sagaId].status != SagaStatus.AwaitingApproval {
        return Denied;
      }
      var saga := activeSagas[sagaId].(pendingSteps := []);
      activeSagas := activeSagas[sagaId := saga];
      db.WriteTransactionState(sagaId, SagaStatus.Compensating, Patch(None, None, Some([]), None));
      end := ExecuteCompensations(sagaId, saga.completedSteps);
    }

    // ── Recovery ────────────────────────────────────────────────────

    method ResolveForwardEffect(sagaId: string, e: Entry) returns (verdict: Resolution)
      requires db.Valid()
      modifies sandbox
      ensures Resolved(verdict, View(sagaId)) == Environment.ResolveForwardEffect(env(), old(View(sagaId)), e)
      ensures forall other | other != sagaId :: Own(other) == old(Own(other))
    {
      var published := db.StepAlreadyCommitted(sagaId, e.idempotencyKey);
      if published {
        return SaysApplied;
      }
      verdict := sandbox.ResolveEffect(sagaId, e);
    }

    method ResolveCompensation(sagaId: string, e: Entry) returns (verdict: Resolution)
      modifies sandbox
      ensures Resolved(verdict, View(sagaId)) == Environment.ResolveCompensation(env(), old(View(sagaId)), e)
      ensures forall other | other != sagaId :: Own(other) == old(Own(other))
    {
      verdict := sandbox.ResolveCompensation(sagaId, e);
    }

    method FailRecoveryCompensation(sagaId: string, e: Entry, error: string) returns (end: End)
      requires db.Valid()
      modifies db
      ensures db.Valid()
      ensures Turn(View(sagaId), end) == CoordinatorSpec.FailRecoveryCompensation(old(View(sagaId)), e, error)
      ensures forall other | other != sagaId :: Own(other) == old(Own(other))
    {
      hide Journal.MoveAt;
      var moved := Move(sagaId, e.stepId, FailCompensation, error);
      if !moved {
        return Denied;
      }
      DeadLetterRecovery(sagaId, e.stepName, error);
      end := Quarantined;
    }

    method RecoverCompensation(sagaId: string, e: Entry, alreadyMarked: bool) returns (end: End)
      requires db.Valid()
      modifies this, db, sandbox
      ensures db.Valid()
      ensures Turn(View(sagaId), end) ==
        if alreadyMarked then RecoveryCompensation(env(), old(View(sagaId)), e)
        else BeginRecoveryCompensation(env(), old(View(sagaId)), e)
      ensures forall other | other != sagaId :: Own(other) == old(Own(other))
      ensures activeSagas == old(activeSagas)
    {
      hide Journal.MoveAt, CoordinatorSpec.FailRecoveryCompensation, ReplyOf, TakesEffect;
      if !alreadyMarked {
        var moved := Move(sagaId, e.stepId, BeginCompensation, "");
        if !moved {
          return Denied;
        }
      }
      var crash := Checkpoint(sagaId);
      if crash {
        return Crashed;
      }
      var reply := CallUndo(sagaId, e.stepId, e.compensation);
      if reply != Succeeded {
        end := FailRecoveryCompensation(sagaId, e, UNDO_FAILED);
        return;
      }
      crash := Checkpoint(sagaId);
      if crash {
        return Crashed;
      }
      var recorded := Move(sagaId, e.stepId, RecordCompensated, "");
      if !recorded {
        end := FailRecoveryCompensation(sagaId, e, UNDO_FAILED);
        return;
      }
      end := Proceed;
    }

    method MarkAmbiguous(sagaId: string, e: Entry, error: string) returns (end: End)
      requires db.Valid()
      modifies db
      ensures db.Valid()
      ensures Turn(View(sagaId), end) == QuarantineForward(old(View(sagaId)), e, error)
      ensures forall other | other != sagaId :: Own(other) == old(Own(other))
    {
      hide Journal.MoveAt, CoordinatorSpec.DeadLetterRecovery;
      if e.state == EffectState.Executing {
        var moved := Move(sagaId, e.stepId, Site.MarkAmbiguous, error);
        if !moved {
          return Denied;
        }
      }
      DeadLetterRecovery(sagaId, e.stepName, error);
      end := Quarantined;
    }

    /** A compare-and-set whose loss ends recovery. */
    method RecoveryMove(sagaId: string, stepId: string, site: Site) returns (end: End)
      requires db.Valid()
      modifies db
      ensures db.Valid()
      ensures Turn(View(sagaId), end) == CoordinatorSpec.RecoveryMove(old(View(sagaId)), stepId, site)
      ensures forall other | other != sagaId :: Own(other) == old(Own(other))
    {
      hide Journal.MoveAt;
      var moved := Move(sagaId, stepId, site, "");
      end := if moved then Proceed else Denied;
    }

    /** One iteration of recovery: the record as the snapshot has it. */
    method RecoverEffect(sagaId: string, e: Entry) returns (end: End)
      requires db.Valid()
      modifies this, db, sandbox
      ensures db.Valid()
      ensures Turn(View(sagaId), end) == CoordinatorSpec.RecoverEffect(env(), old(View(sagaId)), e)
      ensures forall other | other != sagaId :: Own(other) == old(Own(other))
      ensures activeSagas == old(activeSagas)
    {
      hide Journal.MoveAt, CoordinatorSpec.RecoveryMove, BeginRecoveryCompensation, RecoveryCompensation,
        QuarantineForward, CoordinatorSpec.FailRecoveryCompensation, Environment.ResolveForwardEffect,
        Environment.ResolveCompensation, CoordinatorSpec.DeadLetterRecovery;
      match e.state
      case Aborted | Compensated =>
        end := Proceed;
      case CompensationFailed =>
        DeadLetterRecovery(sagaId, e.stepName, if e.error != "" then e.error else PRIOR_FAILURE);
        end := Quarantined;
      case Prepared =>
        end := RecoveryMove(sagaId, e.stepId, AbortPrepared);
      case Executing | Ambiguous =>
        var verdict := ResolveForwardEffect(sagaId, e);
        match verdict {
          case SaysNotApplied =>
            end := RecoveryMove(sagaId, e.stepId, AbortUnapplied);
          case SaysApplied =>
            end := RecoveryMove(sagaId, e.stepId, ConfirmApplied);
            if end == Proceed {
              end := RecoverCompensation(sagaId, e, false);
            }
          case SaysUnknown =>
            end := MarkAmbiguous(sagaId, e, OUTCOME_UNKNOWN);
          case ResolverRaised =>
            end := MarkAmbiguous(sagaId, e, RESOLVER_FAILED);
        }
      case Compensating =>
        var verdict := ResolveCompensation(sagaId, e);
        match verdict {
          case SaysApplied =>
            end := RecoveryMove(sagaId, e.stepId, RecordCompensated);
          case SaysNotApplied =>
            end := RecoverCompensation(sagaId, e, true);
          case SaysUnknown =>
            end := FailRecoveryCompensation(sagaId, e, UNDO_UNKNOWN);
          case ResolverRaised =>
            end := FailRecoveryCompensation(sagaId, e, UNDO_RESOLVER_FAILED);
        }
      case Applied | Committed =>
        end := RecoverCompensation(sagaId, e, false);
    }

    method RecoverEffects(sagaId: string, effects: seq<Entry>) returns (end: End)
      requires db.Valid()
      modifies this, db, sandbox
      ensures db.Valid()
      ensures Turn(View(sagaId), end) == CoordinatorSpec.RecoverEffects(env(), old(View(sagaId)), effects)
      ensures forall other | other != sagaId :: Own(other) == old(Own(other))
      ensures activeSagas == old(activeSagas)
    {
      hide CoordinatorSpec.RecoverEffect;
      ghost var start := View(sagaId);
      assert effects[..|effects|] == effects;
      var i := |effects|;
      while i > 0
        invariant 0 <= i <= |effects|
        invariant db.Valid()
        invariant CoordinatorSpec.RecoverEffects(env(), View(sagaId), effects[..i])
          == CoordinatorSpec.RecoverEffects(env(), start, effects)
        invariant forall other | other != sagaId :: Own(other) == old(Own(other))
        invariant activeSagas == old(activeSagas)
      {
        i := i - 1;
        assert effects[..i + 1][..i] == effects[..i];
        end := RecoverEffect(sagaId, effects[i]);
        if end != Proceed {
          return;
        }
      }
      end := Proceed;
    }

    /** The body of the recovery loop for one incomplete saga, its snapshot being its ledger. */
    method RecoverSaga(sagaId: string) returns (end: End)
      requires db.Valid() && sagaId !in activeSagas && Incomplete(db.LedgerOf(sagaId))
      modifies this, db, sandbox
      ensures db.Valid()
      ensures Turn(View(sagaId), end) == CoordinatorSpec.Recover(env(), old(View(sagaId)))
      ensures forall other | other != sagaId :: Own(other) == old(Own(other))
    {
      hide CoordinatorSpec.RecoverEffects, DeserializeSteps, CommittedSteps, IndexOf;
      var record := db.state[sagaId];
      var effects := Lookup(db.effects, sagaId, []);
      if record.status == SagaStatus.AwaitingApproval && record.metadata.pendingSteps != [] {
        var pending := DeserializeSteps(record.metadata.pendingSteps);
        if pending.None? {
          return Denied;
        }
        var m := record.metadata;
        activeSagas := activeSagas[sagaId :=
          SagaTransaction(m.tenantId.GetOr(""), m.goal.GetOr(""), SagaStatus.AwaitingApproval,
                          m.startTime.GetOr(0.0), CommittedSteps(effects), pending.value)];
        return Paused;
      }
      if effects != [] {
        end := RecoverEffects(sagaId, effects);
        if end != Proceed {
          return;
        }
      }
      db.WriteTransactionState(sagaId, SagaStatus.RolledBack, NOTHING);
      end := Restored;
    }

    /** The same, told by what the saga owns and the world before and after. */
    method RecoverListed(sagaId: string) returns (end: End)
      requires db.Valid() && Own(sagaId).saga.None? && Incomplete(Own(sagaId).ledger)
      modifies this, db, sandbox
      ensures db.Valid()
      ensures Recovered(env(), old(Own(sagaId)), old(Now()), Own(sagaId), Now(), end)
      ensures end in {Paused, Denied, Restored, Crashed, Quarantined}
      ensures end == Restored <==> Own(sagaId).ledger.status == Some(SagaStatus.RolledBack)
      ensures forall other | other != sagaId :: Own(other) == old(Own(other))
    {
      hide CoordinatorSpec.Recover, Incomplete;
      ghost var before := View(sagaId);
      RecoverEnds(env(), before);
      end := RecoverSaga(sagaId);
    }

    method ListIncomplete() returns (ids: seq<string>)
      requires db.Valid()
      ensures forall id :: id in ids <==> Incomplete(Own(id).ledger)
      ensures forall i, j | 0 <= i < j < |ids| :: ids[i] != ids[j]
    {
      hide Incomplete;
      ids := db.ListIncomplete();
    }

    /**
     `recover` in a fresh process: the incomplete sagas one after the other, each in the world the
     one before left, until all are done or one is stopped by a crash or a lost compare-and-set; the
     others are not touched, and `recovered` counts those rolled back. The log is history.
     */
    method Recover() returns (recovered: nat, end: End, ghost log: seq<Visit<W>>)
      requires db.Valid() && forall id :: Own(id).saga.None?
      modifies this, db, sandbox
      ensures db.Valid()
      ensures InTurn(env(), log, old(Now()), Now()) && StoppedLast(log, end) && recovered == CountRestored(log)
      ensures forall k | 0 <= k < |log| ::
        var id := log[k].sagaId;
        log[k].before == old(Own(id)) && log[k].after == Own(id) && Incomplete(log[k].before.ledger)
      ensures forall j, k | 0 <= j < k < |log| :: log[j].sagaId != log[k].sagaId
      ensures forall id | id !in Visited(log) :: Own(id) == old(Own(id))
      ensures end == Proceed ==> forall id | old(Incomplete(Own(id).ledger)) :: id in Visited(log)
    {
      hide Recovered, InTurn, StoppedLast, CountRestored, Visited,
        Incomplete, Own, View, SagaStateStore.Valid, SagaStateStore.LedgerOf, HoldingsOf, env, Now;
      recovered, end, log := 0, Proceed, [];
      NothingLogged(env(), Now());
      var ids := ListIncomplete();
      var i := 0;
      while i < |ids| && end == Proceed
        invariant 0 <= i <= |ids| && |log| == i && db.Valid()
        invariant Visited(log) == ids[..i]
        invariant InTurn(env(), log, old(Now()), Now()) && StoppedLast(log, end) && recovered == CountRestored(log)
        invariant forall k | 0 <= k < i ::
          log[k].sagaId == ids[k] && log[k].before == old(Own(ids[k])) && log[k].after == Own(ids[k])
        invariant forall id | id !in ids[..i] :: Own(id) == old(Own(id))
      {
        var id := ids[i];
        assert id !in ids[..i] && ids[..i + 1] == ids[..i] + [id];
        ghost var before, from := Own(id), Now();
        assert before == old(Own(id));
        var one := RecoverListed(id);
        ghost var visit := Visit(id, before, from, Own(id), Now(), one);
        LogExtends(env(), log, old(Now()), visit);
        log := log + [visit];
        if one == Restored {
          recovered := recovered + 1;
        }
        if one == Crashed || one == Denied {
          end := one;
        }
        i := i + 1;
      }
      assert i == |ids| ==> ids[..i] == ids;
      assert end == Proceed ==> i == |ids|;
    }
  }

  lemma NothingLogged<W>(env: Env<W>, now: Station<W>)
    ensures InTurn(env, [], now, now) && StoppedLast<W>([], Proceed) && CountRestored<W>([]) == 0 && Visited<W>([]) == []
  {
  }

  // ── How recovery of an incomplete saga may end ────────────────────

  /** Recovery writes the durable status of the saga only when it gives up. */
  ghost predicate StatusTells<W>(s: Sys<W>, t: Turn<W>) {
    && t.end in {Proceed, Crashed, Denied, Quarantined}
    && t.s.ledger.status == if t.end == Quarantined then Some(SagaStatus.CompensationFailed) else s.ledger.status
  }

  lemma FailRecoveryEnds<W>(s: Sys<W>, e: Entry, error: string)
    ensures StatusTells(s, FailRecoveryCompensation(s, e, error))
  {
    hide IndexOf;
  }

  lemma RecoveryCompensationEnds<W>(env: Env<W>, s: Sys<W>, e: Entry)
    ensures StatusTells(s, RecoveryCompensation(env, s, e))
  {
    hide IndexOf, FailRecoveryCompensation, ReplyOf, TakesEffect;
    var a := ExecuteCompensation(env, Tick(s), e.stepId, e.compensation);
    FailRecoveryEnds(a.s, e, UNDO_FAILED);
    FailRecoveryEnds(Tick(a.s), e, UNDO_FAILED);
  }

  lemma BeginRecoveryEnds<W>(env: Env<W>, s: Sys<W>, e: Entry)
    ensures StatusTells(s, BeginRecoveryCompensation(env, s, e))
  {
    hide IndexOf, RecoveryCompensation;
    RecoveryCompensationEnds(env, RecoveryMove(s, e.stepId, BeginCompensation).s, e);
  }

  lemma RecoveryMoveEnds<W>(s: Sys<W>, stepId: string, site: Site)
    ensures StatusTells(s, RecoveryMove(s, stepId, site))
  {
    hide IndexOf;
  }

  lemma QuarantineForwardEnds<W>(s: Sys<W>, e: Entry, error: string)
    ensures StatusTells(s, QuarantineForward(s, e, error))
  {
    hide IndexOf;
  }

  lemma RecoverForwardEnds<W>(env: Env<W>, s: Sys<W>, e: Entry)
    ensures StatusTells(s, RecoverForward(env, s, e))
  {
    var r := ResolveForwardEffect(env, s, e);
    assert r.s.ledger == s.ledger;
    hide RecoveryMove, ResolveForwardEffect, BeginRecoveryCompensation, QuarantineForward;
    match r.verdict
    case SaysNotApplied =>
      RecoveryMoveEnds(r.s, e.stepId, AbortUnapplied);
    case SaysApplied =>
      RecoveryMoveEnds(r.s, e.stepId, ConfirmApplied);
      BeginRecoveryEnds(env, RecoveryMove(r.s, e.stepId, ConfirmApplied).s, e);
    case SaysUnknown =>
      QuarantineForwardEnds(r.s, e, OUTCOME_UNKNOWN);
    case ResolverRaised =>
      QuarantineForwardEnds(r.s, e, RESOLVER_FAILED);
  }

  lemma RecoverUndoEnds<W>(env: Env<W>, s: Sys<W>, e: Entry)
    ensures StatusTells(s, RecoverUndo(env, s, e))
  {
    var r := ResolveCompensation(env, s, e);
    assert r.s.ledger == s.ledger;
    hide RecoveryMove, ResolveCompensation, RecoveryCompensation, FailRecoveryCompensation;
    match r.verdict
    case SaysApplied =>
      RecoveryMoveEnds(r.s, e.stepId, RecordCompensated);
    case SaysNotApplied =>
      RecoveryCompensationEnds(env, r.s, e);
    case SaysUnknown =>
      FailRecoveryEnds(r.s, e, UNDO_UNKNOWN);
    case ResolverRaised =>
      FailRecoveryEnds(r.s, e, UNDO_RESOLVER_FAILED);
  }

  lemma RecoverEffectEnds<W>(env: Env<W>, s: Sys<W>, e: Entry)
    ensures StatusTells(s, RecoverEffect(env, s, e))
  {
    hide RecoveryMove, BeginRecoveryCompensation, RecoverForward, RecoverUndo;
    match e.state
    case Executing | Ambiguous => RecoverForwardEnds(env, s, e);
    case Compensating => RecoverUndoEnds(env, s, e);
    case Prepared => RecoveryMoveEnds(s, e.stepId, AbortPrepared);
    case Applied | Committed => BeginRecoveryEnds(env, s, e);
    case _ =>
  }

  lemma {:induction false} RecoverEffectsEnds<W>(env: Env<W>, s: Sys<W>, effects: seq<Entry>)
    ensures StatusTells(s, RecoverEffects(env, s, effects))
    decreases |effects|
  {
    hide RecoverEffect;
    if effects != [] {
      var k := |effects| - 1;
      RecoverEffectEnds(env, s, effects[k]);
      if RecoverEffect(env, s, effects[k]).end == Proceed {
        RecoverEffectsEnds(env, RecoverEffect(env, s, effects[k]).s, effects[..k]);
      }
    }
  }

  lemma RecoverEnds<W>(env: Env<W>, s: Sys<W>)
    requires Incomplete(s.ledger)
    ensures var t := Recover(env, s);
      && t.end in {Paused, Denied, Restored, Crashed, Quarantined}
      && (t.end == Restored <==> t.s.ledger.status == Some(SagaStatus.RolledBack))
  {
    hide RecoverEffects, DeserializeSteps, CommittedSteps;
    RecoverEffectsEnds(env, s.(saga := None), s.ledger.entries);
  }
}
