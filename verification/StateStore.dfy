/** The in-memory backend of the saga state store, its dictionaries updated in place. */
module StateStore {
  import opened Prelude
  import opened Sagas
  import opened Journal

  datatype StateRecord = StateRecord(status: SagaStatus, metadata: Metadata)

  datatype DeadRecord = DeadRecord(sagaId: string, stepName: string, error: string)

  /** The items one write adds to a metadata dictionary. */
  datatype Patch = Patch(
    tenantId: Option<string>, goal: Option<string>, pendingSteps: Option<seq<Value>>, startTime: Option<real>)

  const NOTHING := Patch(None, None, None, None)

  /** `metadata.update(patch)`. */
  function Update(m: Metadata, patch: Patch): Metadata {
    Metadata(
      if patch.tenantId.Some? then patch.tenantId else m.tenantId,
      if patch.goal.Some? then patch.goal else m.goal,
      patch.pendingSteps.GetOr(m.pendingSteps),
      if patch.startTime.Some? then patch.startTime else m.startTime)
  }

  function Lookup<T>(m: map<string, T>, key: string, default: T): T {
    if key in m then m[key] else default
  }

  /** The dead letters of one saga, in the order they were pushed. */
  function LettersOf(dead: seq<DeadRecord>, sagaId: string): seq<DeadLetter> {
    if dead == [] then []
    else
      var last := dead[|dead| - 1];
      LettersOf(dead[..|dead| - 1], sagaId)
      + if last.sagaId == sagaId then [DeadLetter(last.stepName, last.error)] else []
  }

  class SagaStateStore {
    var state: map<string, StateRecord>
    var order: seq<string>            // the keys of `state` in insertion order
    var idem: map<string, set<string>>
    var dead: seq<DeadRecord>
    var effects: map<string, seq<Entry>>
    ghost var moves: map<string, seq<Move>>

    ghost predicate Valid()
      reads this
    {
      && (forall i, j | 0 <= i < j < |order| :: order[i] != order[j])
      && (forall id :: id in state <==> id in order)
    }

    /** The durable slice of one saga. */
    ghost function LedgerOf(sagaId: string): Ledger
      reads this
    {
      Ledger(if sagaId in state then Some(state[sagaId].status) else None,
             if sagaId in state then state[sagaId].metadata else EMPTY_LEDGER.metadata,
             Lookup(effects, sagaId, []),
             Lookup(idem, sagaId, {}),
             LettersOf(dead, sagaId),
             Lookup(moves, sagaId, []))
    }

    constructor ()
      ensures Valid() && forall id :: LedgerOf(id) == EMPTY_LEDGER
    {
      state, order, idem, dead, effects, moves := map[], [], map[], [], map[], map[];
    }

    method WriteTransactionState(sagaId: string, status: SagaStatus, patch: Patch)
      requires Valid()
      modifies this`state, this`order
      ensures Valid()
      ensures var was := old(LedgerOf(sagaId));
        LedgerOf(sagaId) == WriteStatus(was, status).(metadata := Update(was.metadata, patch))
      ensures forall other | other != sagaId :: LedgerOf(other) == old(LedgerOf(other))
      ensures forall other :: other in state <==> other in old(state) || other == sagaId
    {
      var metadata := if sagaId in state then state[sagaId].metadata else EMPTY_LEDGER.metadata;
      if sagaId !in state {
        order := order + [sagaId];
      }
      state := state[sagaId := StateRecord(status, Update(metadata, patch))];
    }

    /** The position of a record in the journal of its saga, or the journal's length. */
    method FindEffect(sagaId: string, stepId: string) returns (i: nat)
      ensures i == IndexOf(Lookup(effects, sagaId, []), stepId)
    {
      var entries := Lookup(effects, sagaId, []);
      i := 0;
      while i < |entries| && entries[i].stepId != stepId
        invariant i <= |entries|
        invariant forall j | 0 <= j < i :: entries[j].stepId != stepId
      {
        i := i + 1;
      }
    }

    /** False stands for JournalConflictError. */
    method PrepareEffect(sagaId: string, step: SagaStep) returns (ok: bool)
      modifies this`effects
      ensures var r := Journal.PrepareEffect(old(LedgerOf(sagaId)), step);
        ok == r.Some? && LedgerOf(sagaId) == r.GetOr(old(LedgerOf(sagaId)))
      ensures forall other | other != sagaId :: LedgerOf(other) == old(LedgerOf(other))
    {
      var entries := Lookup(effects, sagaId, []);
      var i := FindEffect(sagaId, step.stepId);
      if i < |entries| {
        return SameEffect(entries[i], NewEntry(step));
      }
      effects := effects[sagaId := entries + [NewEntry(step)]];
      return true;
    }

    /** Compare-and-set of one record; false stands for JournalConflictError and KeyError. */
    method TransitionEffect(
      sagaId: string, stepId: string, expected: set<EffectState>, to: EffectState, error: string)
      returns (ok: bool)
      modifies this`effects, this`moves
      ensures var r := Journal.TransitionEffect(old(LedgerOf(sagaId)), stepId, expected, to, error);
        ok == r.Some? && LedgerOf(sagaId) == r.GetOr(old(LedgerOf(sagaId)))
      ensures forall other | other != sagaId :: LedgerOf(other) == old(LedgerOf(other))
    {
      var entries := Lookup(effects, sagaId, []);
      var i := FindEffect(sagaId, stepId);
      if i == |entries| || entries[i].state !in expected {
        return false;
      }
      moves := moves[sagaId := Lookup(moves, sagaId, []) + [Move(entries[i].stepId, entries[i].state, to)]];
      effects := effects[sagaId := entries[i := entries[i].(state := to, error := error)]];
      return true;
    }

    /** A transition requested by one of the coordinator's call sites. */
    method MoveAt(sagaId: string, stepId: string, site: Site, error: string) returns (ok: bool)
      modifies this`effects, this`moves
      ensures var r := Journal.MoveAt(old(LedgerOf(sagaId)), stepId, site, error);
        ok == r.Some? && LedgerOf(sagaId) == r.GetOr(old(LedgerOf(sagaId)))
      ensures forall other | other != sagaId :: LedgerOf(other) == old(LedgerOf(other))
    {
      ok := TransitionEffect(sagaId, stepId, Expected(site), Target(site), error);
    }

    /** COMMITTED and the publication of the key, in one atomic step. */
    method CommitEffect(sagaId: string, stepId: string, key: Option<string>) returns (ok: bool)
      modifies this`effects, this`moves, this`idem
      ensures var r := Journal.CommitEffect(old(LedgerOf(sagaId)), stepId, key);
        ok == r.Some? && LedgerOf(sagaId) == r.GetOr(old(LedgerOf(sagaId)))
      ensures forall other | other != sagaId :: LedgerOf(other) == old(LedgerOf(other))
    {
      var entries := Lookup(effects, sagaId, []);
      var i := FindEffect(sagaId, stepId);
      if i == |entries| || entries[i].state != EffectState.Applied {
        return false;
      }
      moves := moves[sagaId := Lookup(moves, sagaId, []) + [Move(stepId, EffectState.Applied, EffectState.Committed)]];
      effects := effects[sagaId := entries[i := entries[i].(state := EffectState.Committed)]];
      if Keyed(key) {
        idem := idem[sagaId := Lookup(idem, sagaId, {}) + {key.value}];
      }
      return true;
    }

    method StepAlreadyCommitted(sagaId: string, key: Option<string>) returns (b: bool)
      ensures b <==> AlreadyCommitted(LedgerOf(sagaId), key)
    {
      b := Keyed(key) && key.value in Lookup(idem, sagaId, {});
    }

    method PushDeadLetter(sagaId: string, stepName: string, error: string)
      modifies this`dead
      ensures LedgerOf(sagaId) == Journal.PushDeadLetter(old(LedgerOf(sagaId)), stepName, error)
      ensures forall other | other != sagaId :: LedgerOf(other) == old(LedgerOf(other))
    {
      var was := dead;
      dead := dead + [DeadRecord(sagaId, stepName, error)];
      assert dead[..|dead| - 1] == was;
    }

    /** The sagas whose status is not terminal, in insertion order. */
    method ListIncomplete() returns (ids: seq<string>)
      requires Valid()
      ensures forall id :: id in ids <==> Incomplete(LedgerOf(id))
      ensures forall i, j | 0 <= i < j < |ids| :: ids[i] != ids[j]
    {
      ids := [];
      for i := 0 to |order|
        invariant forall id :: id in ids <==> id in order[..i] && Incomplete(LedgerOf(id))
        invariant forall j, k | 0 <= j < k < |ids| :: ids[j] != ids[k]
      {
        var id := order[i];
        assert order[..i + 1] == order[..i] + [id] && id !in order[..i];
        if !Terminal(state[id].status) {
          ids := ids + [id];
        }
      }
      assert order[..|order|] == order;
    }
  }
}
