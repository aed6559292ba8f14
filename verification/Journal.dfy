/**
 The durable slice of one saga: its status record, its write-ahead effect journal, its
 published idempotency keys and its dead letters. The functions are the memory branches
 of the state store, as value transformations; class SagaStateStore performs them in place.
 */
module Journal {
  import opened Prelude
  import opened Sagas

  datatype EffectState =
    | Prepared | Executing | Applied | Committed | Aborted
    | Ambiguous | Compensating | Compensated | CompensationFailed

  /** One journal record. Its sequence number is its position plus one. */
  datatype Entry = Entry(
    stepId: string,
    stepName: string,
    action: ActionPayload,
    compensation: ActionPayload,
    idempotencyKey: Option<string>,
    state: EffectState,
    error: string)

  datatype DeadLetter = DeadLetter(stepName: string, error: string)

  datatype Metadata = Metadata(
    tenantId: Option<string>,
    goal: Option<string>,
    pendingSteps: seq<Value>,
    startTime: Option<real>)

  /** History variable: one state change of one journal record. */
  datatype Move = Move(stepId: string, from: EffectState, to: EffectState)

  datatype Ledger = Ledger(
    status: Option<SagaStatus>,
    metadata: Metadata,
    entries: seq<Entry>,
    published: set<string>,
    deadLetters: seq<DeadLetter>,
    moves: seq<Move>)

  const EMPTY_LEDGER := Ledger(None, Metadata(None, None, [], None), [], {}, [], [])

  predicate Settled(state: EffectState) {
    state in {EffectState.Aborted, EffectState.Compensated}
  }

  ghost predicate AllSettled(entries: seq<Entry>) {
    forall i | 0 <= i < |entries| :: Settled(entries[i].state)
  }

  ghost predicate DistinctIds(entries: seq<Entry>) {
    forall i, j | 0 <= i < j < |entries| :: entries[i].stepId != entries[j].stepId
  }

  /** Position of the first record with this step id, or the length when there is none. */
  function IndexOf(entries: seq<Entry>, stepId: string): (index: nat)
    ensures index <= |entries|
    ensures index < |entries| ==> entries[index].stepId == stepId
    ensures forall i | 0 <= i < index :: entries[i].stepId != stepId
  {
    if exists i :: 0 <= i < |entries| && entries[i].stepId == stepId then
      FirstExists(entries, stepId);
      var i :| 0 <= i < |entries| && entries[i].stepId == stepId && forall j | 0 <= j < i :: entries[j].stepId != stepId;
      i
    else
      |entries|
  }

  lemma {:induction false} FirstExists(entries: seq<Entry>, stepId: string)
    requires exists i :: 0 <= i < |entries| && entries[i].stepId == stepId
    ensures exists i ::
      0 <= i < |entries| && entries[i].stepId == stepId && forall j | 0 <= j < i :: entries[j].stepId != stepId
  {
    var i :| 0 <= i < |entries| && entries[i].stepId == stepId;
    if j :| 0 <= j < i && entries[j].stepId == stepId {
      FirstExists(entries[..i], stepId);
      var k :| 0 <= k < i && entries[..i][k].stepId == stepId
        && forall j | 0 <= j < k :: entries[..i][j].stepId != stepId;
      assert forall j | 0 <= j < k :: entries[j] == entries[..i][j];
    }
  }

  lemma IndexOfUnique(entries: seq<Entry>, i: nat)
    requires DistinctIds(entries) && i < |entries|
    ensures IndexOf(entries, entries[i].stepId) == i
  {
  }

  /** The position of a record depends on the step ids alone. */
  lemma IndexOfSameIds(a: seq<Entry>, b: seq<Entry>, stepId: string)
    requires |a| == |b| && forall i | 0 <= i < |a| :: a[i].stepId == b[i].stepId
    ensures IndexOf(a, stepId) == IndexOf(b, stepId)
  {
  }

  // ── Writes ────────────────────────────────────────────────────────

  function WriteStatus(l: Ledger, status: SagaStatus): Ledger {
    l.(status := Some(status))
  }

  /** The record a step registers before its external call. */
  function NewEntry(step: SagaStep): Entry {
    Entry(step.stepId, step.stepName, step.action, step.compensation, step.idempotencyKey, EffectState.Prepared, "")
  }

  predicate SameEffect(existing: Entry, proposed: Entry) {
    && existing.stepName == proposed.stepName
    && existing.action == proposed.action
    && existing.compensation == proposed.compensation
    && existing.idempotencyKey == proposed.idempotencyKey
  }

  /** `prepare_effect`: idempotent for an identical record, a conflict (None) for a reused identity. */
  function PrepareEffect(l: Ledger, step: SagaStep): (r: Option<Ledger>) {
    var i := IndexOf(l.entries, step.stepId);
    if i < |l.entries| then
      if SameEffect(l.entries[i], NewEntry(step)) then Some(l) else None
    else
      Some(l.(entries := l.entries + [NewEntry(step)]))
  }

  function SetState(l: Ledger, i: nat, to: EffectState, error: string): Ledger
    requires i < |l.entries|
  {
    var e := l.entries[i];
    l.(entries := l.entries[i := e.(state := to, error := error)], moves := l.moves + [Move(e.stepId, e.state, to)])
  }

  /** `transition_effect`: compare-and-set; None stands for JournalConflictError and KeyError. */
  function TransitionEffect(l: Ledger, stepId: string, expected: set<EffectState>, to: EffectState, error: string)
    : (r: Option<Ledger>)
  {
    var i := IndexOf(l.entries, stepId);
    if i < |l.entries| && l.entries[i].state in expected then Some(SetState(l, i, to, error)) else None
  }

  /** `commit_effect`: APPLIED to COMMITTED together with the publication of the key. */
  function CommitEffect(l: Ledger, stepId: string, key: Option<string>): (r: Option<Ledger>) {
    var i := IndexOf(l.entries, stepId);
    if i < |l.entries| && l.entries[i].state == EffectState.Applied then
      var l' := SetState(l, i, EffectState.Committed, l.entries[i].error);
      Some(if Keyed(key) then l'.(published := l'.published + {key.value}) else l')
    else
      None
  }

  function PushDeadLetter(l: Ledger, stepName: string, error: string): Ledger {
    l.(deadLetters := l.deadLetters + [DeadLetter(stepName, error)])
  }

  /** `step_already_committed`, guarded by the truthiness test at its call sites. */
  predicate AlreadyCommitted(l: Ledger, key: Option<string>) {
    Keyed(key) && key.value in l.published
  }

  /** `list_incomplete` keeps the sagas with a record whose status is not terminal. */
  predicate Incomplete(l: Ledger) {
    l.status.Some? && !Terminal(l.status.value)
  }

  // ── Call sites ────────────────────────────────────────────────────

  /** Every place of the coordinator that moves a record, besides `commit_effect`. */
  datatype Site =
    | Claim                // the forward call is about to start
    | RejectCall           // the call reported failure
    | RecordApplied        // the call reported success
    | RecordRaised         // the call raised
    | BeginCompensation    // a rollback or a recovery is about to undo the effect
    | RecordCompensated    // the undo succeeded, or recovery found that it had
    | FailCompensation     // the undo failed, or could not be resolved
    | AbortPrepared        // recovery: the call never started
    | AbortUnapplied       // recovery: resolved as not applied
    | ConfirmApplied       // recovery: resolved as applied
    | MarkAmbiguous        // recovery: outcome unknown

  function Expected(site: Site): set<EffectState> {
    match site
    case Claim | AbortPrepared => {EffectState.Prepared}
    case RejectCall | RecordApplied | RecordRaised | MarkAmbiguous => {EffectState.Executing}
    case AbortUnapplied | ConfirmApplied => {EffectState.Executing, EffectState.Ambiguous}
    case BeginCompensation => {EffectState.Applied, EffectState.Committed}
    case RecordCompensated | FailCompensation => {EffectState.Compensating}
  }

  function Target(site: Site): EffectState {
    match site
    case Claim => EffectState.Executing
    case RejectCall | AbortPrepared | AbortUnapplied => EffectState.Aborted
    case RecordApplied | ConfirmApplied => EffectState.Applied
    case RecordRaised | MarkAmbiguous => EffectState.Ambiguous
    case BeginCompensation => EffectState.Compensating
    case RecordCompensated => EffectState.Compensated
    case FailCompensation => EffectState.CompensationFailed
  }

  function MoveAt(l: Ledger, stepId: string, site: Site, error: string := ""): (r: Option<Ledger>) {
    TransitionEffect(l, stepId, Expected(site), Target(site), error)
  }
}
