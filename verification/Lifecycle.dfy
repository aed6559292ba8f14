/**
 The lifecycle of journal records over whole runs: which state changes occur, how many there
 can be, that records are never rewritten, and which idempotency keys get published.
 */
module Lifecycle {
  import opened Prelude
  import opened Sagas
  import opened Journal
  import opened Environment
  import opened Runs

  // ── The lifecycle graph and its measure ───────────────────────────

  predicate Edge(from: EffectState, to: EffectState) {
    match from
    case Prepared => to == EffectState.Executing || to == EffectState.Aborted
    case Executing => to == EffectState.Applied || to == EffectState.Aborted || to == EffectState.Ambiguous
    case Ambiguous => to == EffectState.Applied || to == EffectState.Aborted
    case Applied => to == EffectState.Committed || to == EffectState.Compensating
    case Committed => to == EffectState.Compensating
    case Compensating => to == EffectState.Compensated || to == EffectState.CompensationFailed
    case Aborted | Compensated | CompensationFailed => false
  }

  /** The number of changes a record can still go through. */
  function Rank(state: EffectState): nat {
    match state
    case Prepared => 6
    case Executing => 5
    case Ambiguous => 4
    case Applied => 3
    case Committed => 2
    case Compensating => 1
    case Aborted | Compensated | CompensationFailed => 0
  }

  lemma EdgesDescend(from: EffectState, to: EffectState)
    requires Edge(from, to)
    ensures Rank(to) < Rank(from)
  {
  }

  lemma SitesFollowEdges(site: Site, from: EffectState)
    requires from in Expected(site)
    ensures Edge(from, Target(site))
  {
  }

  function TotalRank(entries: seq<Entry>): nat {
    if entries == [] then 0 else TotalRank(entries[..|entries| - 1]) + Rank(entries[|entries| - 1].state)
  }

  lemma {:induction false} TotalRankUpdate(entries: seq<Entry>, i: nat, e: Entry)
    requires i < |entries|
    ensures TotalRank(entries[i := e]) == TotalRank(entries) - Rank(entries[i].state) + Rank(e.state)
  {
    var n := |entries| - 1;
    if i == n {
      assert entries[i := e][..n] == entries[..n];
    } else {
      TotalRankUpdate(entries[..n], i, e);
      assert entries[i := e][..n] == entries[..n][i := e];
    }
  }

  /** The state the history assigns to a record: where its latest change led. */
  function StateAfter(moves: seq<Move>, stepId: string): EffectState {
    if moves == [] then EffectState.Prepared
    else if moves[|moves| - 1].stepId == stepId then moves[|moves| - 1].to
    else StateAfter(moves[..|moves| - 1], stepId)
  }

  ghost predicate Explains(moves: seq<Move>, entries: seq<Entry>) {
    forall i | 0 <= i < |entries| :: entries[i].state == StateAfter(moves, entries[i].stepId)
  }

  /** Every change starts where the record was, and follows an edge. */
  ghost predicate FollowsGraph(moves: seq<Move>) {
    forall k | 0 <= k < |moves| ::
      moves[k].from == StateAfter(moves[..k], moves[k].stepId) && Edge(moves[k].from, moves[k].to)
  }

  ghost predicate MovesKnown(moves: seq<Move>, entries: seq<Entry>) {
    forall k | 0 <= k < |moves| :: IndexOf(entries, moves[k].stepId) < |entries|
  }

  ghost predicate WellFormed(entries: seq<Entry>, moves: seq<Move>) {
    && DistinctIds(entries)
    && MovesKnown(moves, entries)
    && Explains(moves, entries)
    && FollowsGraph(moves)
    && |moves| + TotalRank(entries) <= 6 * |entries|
  }

  ghost predicate WellFormedLedger(l: Ledger) {
    WellFormed(l.entries, l.moves)
  }

  lemma FollowsGraphExtends(moves: seq<Move>, move: Move)
    requires FollowsGraph(moves)
    requires move.from == StateAfter(moves, move.stepId) && Edge(move.from, move.to)
    ensures FollowsGraph(moves + [move])
  {
    var moves' := moves + [move];
    assert moves'[..|moves|] == moves;
    forall k | 0 <= k < |moves'|
      ensures moves'[k].from == StateAfter(moves'[..k], moves'[k].stepId) && Edge(moves'[k].from, moves'[k].to)
    {
      if k < |moves| {
        assert moves'[..k] == moves[..k];
      }
    }
  }

  lemma SetStateWellFormed(l: Ledger, i: nat, to: EffectState, error: string)
    requires WellFormedLedger(l) && i < |l.entries| && Edge(l.entries[i].state, to)
    ensures WellFormedLedger(SetState(l, i, to, error))
  {
    var l' := SetState(l, i, to, error);
    var move := Move(l.entries[i].stepId, l.entries[i].state, to);
    FollowsGraphExtends(l.moves, move);
    assert l'.moves[..|l.moves|] == l.moves;
    forall k | 0 <= k < |l'.moves|
      ensures IndexOf(l'.entries, l'.moves[k].stepId) < |l'.entries|
    {
      IndexOfSameIds(l.entries, l'.entries, l'.moves[k].stepId);
      if k == |l.moves| {
        IndexOfUnique(l.entries, i);
      }
    }
    TotalRankUpdate(l.entries, i, l'.entries[i]);
    EdgesDescend(l.entries[i].state, to);
  }

  lemma {:induction false} UnknownIsPrepared(moves: seq<Move>, stepId: string)
    requires forall k | 0 <= k < |moves| :: moves[k].stepId != stepId
    ensures StateAfter(moves, stepId) == EffectState.Prepared
  {
    if moves != [] {
      UnknownIsPrepared(moves[..|moves| - 1], stepId);
    }
  }

  lemma PrepareWellFormed(l: Ledger, step: SagaStep)
    requires WellFormedLedger(l) && PrepareEffect(l, step).Some?
    ensures WellFormedLedger(PrepareEffect(l, step).value)
  {
    var l' := PrepareEffect(l, step).value;
    var n := |l.entries|;
    if IndexOf(l.entries, step.stepId) == n {
      forall k | 0 <= k < |l.moves|
        ensures l.moves[k].stepId != step.stepId
        ensures IndexOf(l'.entries, l.moves[k].stepId) < |l'.entries|
      {
        IndexOfPrefix(l.entries, NewEntry(step), l.moves[k].stepId);
      }
      UnknownIsPrepared(l.moves, step.stepId);
      assert l'.entries[..n] == l.entries;
    }
  }

  lemma IndexOfPrefix(entries: seq<Entry>, e: Entry, stepId: string)
    requires IndexOf(entries, stepId) < |entries|
    ensures IndexOf(entries + [e], stepId) == IndexOf(entries, stepId)
  {
    assert forall i | 0 <= i < |entries| :: (entries + [e])[i] == entries[i];
  }

  lemma WellFormedStable()
    ensures Stable(WellFormedLedger)
  {
    forall l, stepId, site, error | WellFormedLedger(l) && MoveAt(l, stepId, site, error).Some?
      ensures WellFormedLedger(MoveAt(l, stepId, site, error).value)
    {
      var i := IndexOf(l.entries, stepId);
      SitesFollowEdges(site, l.entries[i].state);
      SetStateWellFormed(l, i, Target(site), error);
    }
    assert StableUnderMoves(WellFormedLedger);
    forall l, step | WellFormedLedger(l) && PrepareEffect(l, step).Some?
      ensures WellFormedLedger(PrepareEffect(l, step).value)
    {
      PrepareWellFormed(l, step);
    }
    assert StableUnderPrepare(WellFormedLedger);
    forall l, step: SagaStep | WellFormedLedger(l) && CommitEffect(l, step.stepId, step.idempotencyKey).Some?
      ensures WellFormedLedger(CommitEffect(l, step.stepId, step.idempotencyKey).value)
    {
      var i := IndexOf(l.entries, step.stepId);
      SetStateWellFormed(l, i, EffectState.Committed, l.entries[i].error);
    }
    assert StableUnderCommit(WellFormedLedger);
  }

  /**
   Over any run with any crashes, records change only along the lifecycle graph, each change
   starting where the previous one of that record ended, and n records change at most 6n times.
   */
  lemma EveryRunFollowsTheLifecycle<W>(env: Env<W>, s: Sys<W>, ops: seq<Operation>)
    requires s.ledger == EMPTY_LEDGER
    ensures var l := Run(env, s, ops).ledger;
      && DistinctIds(l.entries)
      && FollowsGraph(l.moves)
      && Explains(l.moves, l.entries)
      && |l.moves| <= 6 * |l.entries|
  {
    WellFormedStable();
    RunKeeps(env, s, ops, WellFormedLedger);
  }

  // ── Records are never rewritten ───────────────────────────────────

  /** Only the state and its error may differ. */
  predicate SameRecord(a: Entry, b: Entry) {
    b == a.(state := b.state, error := b.error)
  }

  /** `b` continues `a`: the records of `a` keep their position, action, compensation and key. */
  ghost predicate Continues(a: seq<Entry>, b: seq<Entry>) {
    |a| <= |b| && forall i | 0 <= i < |a| :: SameRecord(a[i], b[i])
  }

  lemma ContinuesStable(start: seq<Entry>)
    ensures Stable((l: Ledger) => Continues(start, l.entries))
  {
    ContinuesUnderMoves(start);
    ContinuesUnderPrepare(start);
    ContinuesUnderCommit(start);
    hide StableUnderMoves, StableUnderPrepare, StableUnderCommit, SameRecord;
  }

  lemma ContinuesUnderMoves(start: seq<Entry>)
    ensures StableUnderMoves((l: Ledger) => Continues(start, l.entries))
  {
    hide IndexOf, Expected, Journal.Target;
  }

  lemma ContinuesUnderPrepare(start: seq<Entry>)
    ensures StableUnderPrepare((l: Ledger) => Continues(start, l.entries))
  {
  }

  lemma ContinuesUnderCommit(start: seq<Entry>)
    ensures StableUnderCommit((l: Ledger) => Continues(start, l.entries))
  {
    hide Registered, AlreadyCommitted;
  }

  /** Write-ahead safety: what a run has journaled, no later operation alters, reorders or drops. */
  lemma JournalIsAppendOnly<W>(env: Env<W>, s: Sys<W>, ops: seq<Operation>)
    ensures Continues(s.ledger.entries, Run(env, s, ops).ledger.entries)
  {
    var start := s.ledger.entries;
    ContinuesStable(start);
    RunKeeps(env, s, ops, (l: Ledger) => Continues(start, l.entries));
  }

  // ── Published idempotency keys ────────────────────────────────────

  /** The k-th change committed a record that carries this key. */
  ghost predicate CommitsKey(moves: seq<Move>, entries: seq<Entry>, k: int, key: string) {
    && 0 <= k < |moves| && moves[k].to == EffectState.Committed && key != ""
    && var i := IndexOf(entries, moves[k].stepId);
       i < |entries| && entries[i].idempotencyKey == Some(key)
  }

  /** A key is published exactly when a record with it was committed, and only one ever is. */
  ghost predicate KeysAgree(published: set<string>, moves: seq<Move>, entries: seq<Entry>) {
    && MovesKnown(moves, entries)
    && (forall key :: key in published <==> exists k :: CommitsKey(moves, entries, k, key))
    && (forall key, j, k :: CommitsKey(moves, entries, j, key) && CommitsKey(moves, entries, k, key) ==> j == k)
  }

  ghost predicate KeysAgreeLedger(l: Ledger) {
    KeysAgree(l.published, l.moves, l.entries)
  }

  /** Changing a state adds one change; which of the earlier ones committed which key is unaffected. */
  lemma SetStateCommits(l: Ledger, i: nat, to: EffectState, error: string, k: int, key: string)
    requires MovesKnown(l.moves, l.entries) && i < |l.entries| && i == IndexOf(l.entries, l.entries[i].stepId)
    ensures var l' := SetState(l, i, to, error);
      && MovesKnown(l'.moves, l'.entries)
      && (CommitsKey(l'.moves, l'.entries, k, key) <==>
            (CommitsKey(l.moves, l.entries, k, key)
             || (k == |l.moves| && to == EffectState.Committed && key != "" && l.entries[i].idempotencyKey == Some(key))))
  {
    var l' := SetState(l, i, to, error);
    forall j | 0 <= j < |l'.moves|
      ensures IndexOf(l'.entries, l'.moves[j].stepId) == IndexOf(l.entries, l'.moves[j].stepId)
    {
      IndexOfSameIds(l.entries, l'.entries, l'.moves[j].stepId);
    }
  }

  lemma SetStateKeys(l: Ledger, i: nat, to: EffectState, error: string)
    requires KeysAgreeLedger(l) && i < |l.entries| && i == IndexOf(l.entries, l.entries[i].stepId)
    requires to == EffectState.Committed ==> !AlreadyCommitted(l, l.entries[i].idempotencyKey)
    ensures var l' := SetState(l, i, to, error); var own := l.entries[i].idempotencyKey;
      KeysAgree(if to == EffectState.Committed && Keyed(own) then l.published + {own.value} else l.published,
                l'.moves, l'.entries)
  {
    var l' := SetState(l, i, to, error);
    forall k, key
      ensures CommitsKey(l'.moves, l'.entries, k, key) <==>
                (CommitsKey(l.moves, l.entries, k, key)
                 || (k == |l.moves| && to == EffectState.Committed && key != ""
                     && l.entries[i].idempotencyKey == Some(key)))
    {
      SetStateCommits(l, i, to, error, k, key);
    }
    SetStateCommits(l, i, to, error, 0, "");
    forall key
      ensures (exists k :: CommitsKey(l'.moves, l'.entries, k, key)) <==>
                (key in l.published
                 || (to == EffectState.Committed && key != "" && l.entries[i].idempotencyKey == Some(key)))
    {
      if key in l.published {
        var k :| CommitsKey(l.moves, l.entries, k, key);
        assert CommitsKey(l'.moves, l'.entries, k, key);
      } else if to == EffectState.Committed && key != "" && l.entries[i].idempotencyKey == Some(key) {
        assert CommitsKey(l'.moves, l'.entries, |l.moves|, key);
      }
    }
  }

  lemma PrepareKeys(l: Ledger, step: SagaStep)
    requires KeysAgreeLedger(l) && PrepareEffect(l, step).Some?
    ensures KeysAgreeLedger(PrepareEffect(l, step).value)
  {
    var l' := PrepareEffect(l, step).value;
    if IndexOf(l.entries, step.stepId) == |l.entries| {
      forall k | 0 <= k < |l.moves|
        ensures IndexOf(l'.entries, l.moves[k].stepId) == IndexOf(l.entries, l.moves[k].stepId) < |l.entries|
      {
        IndexOfPrefix(l.entries, NewEntry(step), l.moves[k].stepId);
      }
      forall k, key
        ensures CommitsKey(l'.moves, l'.entries, k, key) <==> CommitsKey(l.moves, l.entries, k, key)
      {
      }
    }
  }

  lemma KeysStable()
    ensures Stable(KeysAgreeLedger)
  {
    forall l, stepId, site, error | KeysAgreeLedger(l) && MoveAt(l, stepId, site, error).Some?
      ensures KeysAgreeLedger(MoveAt(l, stepId, site, error).value)
    {
      SetStateKeys(l, IndexOf(l.entries, stepId), Target(site), error);
    }
    assert StableUnderMoves(KeysAgreeLedger);
    forall l, step | KeysAgreeLedger(l) && PrepareEffect(l, step).Some?
      ensures KeysAgreeLedger(PrepareEffect(l, step).value)
    {
      PrepareKeys(l, step);
    }
    assert StableUnderPrepare(KeysAgreeLedger);
    forall l, step: SagaStep | KeysAgreeLedger(l) && Registered(l, step)
      && !AlreadyCommitted(l, step.idempotencyKey) && CommitEffect(l, step.stepId, step.idempotencyKey).Some?
      ensures KeysAgreeLedger(CommitEffect(l, step.stepId, step.idempotencyKey).value)
    {
      var i := IndexOf(l.entries, step.stepId);
      SetStateKeys(l, i, EffectState.Committed, l.entries[i].error);
    }
    assert StableUnderCommit(KeysAgreeLedger);
  }

  /**
   Over any run, a key is published if and only if a record carrying it reached COMMITTED, and at
   most one record per key ever does.
   */
  lemma PublishedKeysAreTheCommittedOnes<W>(env: Env<W>, s: Sys<W>, ops: seq<Operation>)
    requires s.ledger == EMPTY_LEDGER
    ensures var l := Run(env, s, ops).ledger;
      && (forall key :: key in l.published <==> exists k :: CommitsKey(l.moves, l.entries, k, key))
      && (forall key, j, k :: CommitsKey(l.moves, l.entries, j, key) && CommitsKey(l.moves, l.entries, k, key)
            ==> j == k)
  {
    KeysStable();
    RunKeeps(env, s, ops, KeysAgreeLedger);
  }
}
