/**
 The saga coordinator as functions on one saga. Class SagaTransactionCoordinator carries out
 the same operations in place and is proved to compute exactly these results.
 */
module CoordinatorSpec {
  import opened Prelude
  import opened Sagas
  import opened Journal
  import opened StepCodec
  import opened Environment

  const CALL_FAILED := "Sandbox rejected action"
  const CALL_RAISED := "forward effect raised before its outcome was durably recorded"
  const RESOLVER_FAILED := "effect resolver failed"
  const OUTCOME_UNKNOWN := "forward effect outcome could not be determined"
  const UNDO_RESOLVER_FAILED := "compensation resolver failed"
  const UNDO_UNKNOWN := "compensation outcome could not be determined"
  const UNDO_FAILED := "compensation did not succeed"
  const PRIOR_FAILURE := "prior compensation failure"

  /**
   How an operation ends. Proceed never leaves an operation: it says that the step loop goes on.
   RollbackFailed and Quarantined are told apart here although the program returns False for both.
   */
  datatype End = Proceed | AllCommitted | Paused | Restored | RollbackFailed | Quarantined | Crashed | Denied

  datatype Turn<W> = Turn(s: Sys<W>, end: End)

  // ── Small state changes ───────────────────────────────────────────

  function WithStatus<W>(s: Sys<W>, status: SagaStatus): Sys<W> {
    s.(ledger := WriteStatus(s.ledger, status))
  }

  /** The in-memory status; a coordinator that does not know the saga leaves it alone. */
  function WithMemoryStatus<W>(s: Sys<W>, status: SagaStatus): Sys<W> {
    s.(saga := if s.saga.Some? then Some(s.saga.value.(status := status)) else None)
  }

  function Completed<W>(s: Sys<W>): seq<SagaStep> {
    if s.saga.Some? then s.saga.value.completedSteps else []
  }

  function AppendCompleted<W>(s: Sys<W>, step: SagaStep): Sys<W>
    requires s.saga.Some?
  {
    var done := s.saga.value.completedSteps + [step.(status := COMMITTED)];
    s.(saga := Some(s.saga.value.(completedSteps := done)))
  }

  // ── Rollback ──────────────────────────────────────────────────────

  /** `execute_compensations`. */
  function RollBack<W>(env: Env<W>, s: Sys<W>, completed: seq<SagaStep>): (t: Turn<W>)
    ensures t.s.saga.Some? <==> s.saga.Some?
  {
    CompensateAll(env, WithStatus(s, SagaStatus.Compensating), completed)
  }

  /** Its loop: the steps still to undo, the last one first. */
  function CompensateAll<W>(env: Env<W>, s: Sys<W>, completed: seq<SagaStep>): (t: Turn<W>)
    ensures t.s.saga.Some? <==> s.saga.Some?
    decreases |completed|
  {
    if completed == [] then
      Turn(WithStatus(WithMemoryStatus(s, SagaStatus.RolledBack), SagaStatus.RolledBack), Restored)
    else
      var t := CompensateStep(env, s, completed[|completed| - 1]);
      if t.end.Proceed? then CompensateAll(env, t.s, completed[..|completed| - 1]) else t
  }

  function CompensateStep<W>(env: Env<W>, s: Sys<W>, step: SagaStep): (t: Turn<W>)
    ensures t.s.saga.Some? <==> s.saga.Some?
  {
    var i := IndexOf(s.ledger.entries, step.stepId);
    if i == |s.ledger.entries| then HandleCompensationFailure(s, step)
    else
      var marked := MoveAt(s.ledger, step.stepId, BeginCompensation);
      if marked.Some? then CompensationCall(env, s.(ledger := marked.value), step)
      else if s.ledger.entries[i].state == EffectState.Compensating then CompensationCall(env, s, step)
      else HandleCompensationFailure(s, step)
  }

  function CompensationCall<W>(env: Env<W>, s: Sys<W>, step: SagaStep): (t: Turn<W>)
    ensures t.s.saga.Some? <==> s.saga.Some?
  {
    if CrashesHere(env, s) then Turn(Tick(s), Crashed) else
    var a := ExecuteCompensation(env, Tick(s), step.stepId, step.compensation);
    if a.reply.Raised? then HandleCompensationFailure(a.s, step)
    else if CrashesHere(env, a.s) then Turn(Tick(a.s), Crashed)
    else if a.reply.Refused? then HandleCompensationFailure(Tick(a.s), step)
    else
      var recorded := MoveAt(a.s.ledger, step.stepId, RecordCompensated);
      if recorded.None? then HandleCompensationFailure(Tick(a.s), step)
      else
        var s' := Tick(a.s).(ledger := recorded.value);
        Turn(Tick(s'), if CrashesHere(env, s') then Crashed else Proceed)
  }

  /** `_handle_compensation_failure`. */
  function HandleCompensationFailure<W>(s: Sys<W>, step: SagaStep): (t: Turn<W>)
    ensures t.s.saga.Some? <==> s.saga.Some?
  {
    var s' := WithStatus(WithMemoryStatus(s, SagaStatus.CompensationFailed), SagaStatus.CompensationFailed);
    var moved := MoveAt(s'.ledger, step.stepId, FailCompensation, UNDO_FAILED);
    var l := PushDeadLetter(moved.GetOr(s'.ledger), step.stepName, UNDO_FAILED);
    Turn(s'.(ledger := l), RollbackFailed)
  }

  // ── Forward execution ─────────────────────────────────────────────

  /** `execute_saga`; Denied stands for the error raised when the saga is not in memory. */
  function ExecuteSaga<W>(env: Env<W>, s: Sys<W>, steps: seq<SagaStep>): Turn<W> {
    if s.saga.None? then Turn(s, Denied) else ExecuteSteps(env, s, steps)
  }

  function ExecuteSteps<W>(env: Env<W>, s: Sys<W>, steps: seq<SagaStep>): (t: Turn<W>)
    requires s.saga.Some?
    ensures t.s.saga.Some? <==> s.saga.Some?
    decreases |steps|
  {
    if steps == [] then
      Turn(WithStatus(WithMemoryStatus(s, SagaStatus.Committed), SagaStatus.Committed), AllCommitted)
    else if AlreadyCommitted(s.ledger, steps[0].idempotencyKey) then
      ExecuteSteps(env, s, steps[1..])
    else
      var t := AttemptStep(env, s, steps);
      if t.end.Proceed? then ExecuteSteps(env, t.s, steps[1..]) else t
  }

  /** One iteration of the step loop, for the head of `steps`. */
  function AttemptStep<W>(env: Env<W>, s: Sys<W>, steps: seq<SagaStep>): (t: Turn<W>)
    requires s.saga.Some? && steps != []
    ensures t.s.saga.Some? <==> s.saga.Some?
  {
    var c := env.choice(s.clock);
    if c.gate != Admit || !c.preflight then Abandon(env, Tick(s))
    else if steps[0].requiresApproval && !steps[0].approved then Pause(Tick(s), steps)
    else PrepareStep(env, Tick(s), steps[0])
  }

  /** A failure before or after the external call whose outcome is known: undo what was completed. */
  function Abandon<W>(env: Env<W>, s: Sys<W>): (t: Turn<W>)
    ensures t.s.saga.Some? <==> s.saga.Some?
  {
    RollBack(env, s, Completed(s))
  }

  /** The approval gate: the head and everything after it wait. */
  function Pause<W>(s: Sys<W>, steps: seq<SagaStep>): (t: Turn<W>)
    requires s.saga.Some? && steps != []
    ensures t.s.saga.Some? <==> s.saga.Some?
  {
    var pending := [steps[0].(status := AWAITING_APPROVAL)] + steps[1..];
    var saga := s.saga.value.(status := SagaStatus.AwaitingApproval, pendingSteps := pending);
    var metadata := s.ledger.metadata.(pendingSteps := SerializeSteps(pending), startTime := Some(saga.startTime));
    var l := WriteStatus(s.ledger, SagaStatus.AwaitingApproval).(metadata := metadata);
    Turn(s.(ledger := l, saga := Some(saga)), Paused)
  }

  /** Write-ahead registration, then the compare-and-set that claims the right to call. */
  function PrepareStep<W>(env: Env<W>, s: Sys<W>, step: SagaStep): (t: Turn<W>)
    requires s.saga.Some?
    ensures t.s.saga.Some? <==> s.saga.Some?
  {
    var prepared := PrepareEffect(s.ledger, step);
    if prepared.None? then Abandon(env, s) else
    var s1 := s.(ledger := prepared.value);
    if CrashesHere(env, s1) then Turn(Tick(s1), Crashed) else
    var claimed := MoveAt(s1.ledger, step.stepId, Claim);
    if claimed.None? then Abandon(env, Tick(s1))
    else CallStep(env, Tick(s1).(ledger := claimed.value), step)
  }

  function CallStep<W>(env: Env<W>, s: Sys<W>, step: SagaStep): (t: Turn<W>)
    requires s.saga.Some?
    ensures t.s.saga.Some? <==> s.saga.Some?
  {
    if CrashesHere(env, s) then Turn(Tick(s), Crashed) else
    var a := Execute(env, Tick(s), step.stepId, step.action);
    if a.reply.Raised? then AbandonAmbiguous(env, a.s, step)
    else if CrashesHere(env, a.s) then Turn(Tick(a.s), Crashed)
    else if a.reply.Refused? then
      var aborted := MoveAt(a.s.ledger, step.stepId, RejectCall, CALL_FAILED);
      if aborted.None? then AbandonAmbiguous(env, Tick(a.s), step)
      else Abandon(env, Tick(a.s).(ledger := aborted.value))
    else RecordStep(env, Tick(a.s), step)
  }

  /** The call reported success: APPLIED, then COMMITTED with the key published. */
  function RecordStep<W>(env: Env<W>, s: Sys<W>, step: SagaStep): (t: Turn<W>)
    requires s.saga.Some?
    ensures t.s.saga.Some? <==> s.saga.Some?
  {
    var applied := MoveAt(s.ledger, step.stepId, RecordApplied);
    if applied.None? then AbandonAmbiguous(env, s, step) else
    var s1 := s.(ledger := applied.value);
    if CrashesHere(env, s1) then Turn(Tick(s1), Crashed) else
    var s2 := AppendCompleted(Tick(s1), step);
    var committed := CommitEffect(s2.ledger, step.stepId, step.idempotencyKey);
    if committed.None? then Abandon(env, s2) else
    var s3 := s2.(ledger := committed.value);
    Turn(Tick(s3), if CrashesHere(env, s3) then Crashed else Proceed)
  }

  /**
   A call that raised. The completed steps are undone first; only then is the effect marked
   AMBIGUOUS and the durable status overwritten. The in-memory status is not.
   */
  function AbandonAmbiguous<W>(env: Env<W>, s: Sys<W>, step: SagaStep): (t: Turn<W>)
    ensures t.s.saga.Some? <==> s.saga.Some?
  {
    var t := Abandon(env, s);
    if t.end.Crashed? then t else
    var moved := MoveAt(t.s.ledger, step.stepId, RecordRaised, CALL_RAISED);
    Turn(t.s.(ledger := DeadLetterRecovery(moved.GetOr(t.s.ledger), step.stepName, CALL_RAISED)), Quarantined)
  }

  /** `_dead_letter_recovery`. */
  function DeadLetterRecovery(l: Ledger, stepName: string, error: string): Ledger {
    PushDeadLetter(WriteStatus(l, SagaStatus.CompensationFailed), stepName, error)
  }

  // ── Lifecycle and approval ────────────────────────────────────────

  /** `start_transaction_log`; Denied when the saga is already in memory. */
  function Start<W>(s: Sys<W>, goal: string, tenantId: string, now: real): Turn<W> {
    if s.saga.Some? then Turn(s, Denied) else
    var l := WriteStatus(s.ledger, SagaStatus.Running);
    var metadata := l.metadata.(goal := Some(goal), tenantId := Some(tenantId));
    Turn(s.(saga := Some(SagaTransaction(tenantId, goal, SagaStatus.Running, now, [], [])),
            ledger := l.(metadata := metadata)), Proceed)
  }

  /** `resume_after_approval`. */
  function Resume<W>(env: Env<W>, s: Sys<W>): Turn<W> {
    if s.saga.None? || s.saga.value.status != SagaStatus.AwaitingApproval || s.saga.value.pendingSteps == [] then
      Turn(s, Denied)
    else
      var pending := s.saga.value.pendingSteps;
      var saga := s.saga.value.(pendingSteps := [], status := SagaStatus.Running);
      var l := WriteStatus(s.ledger, SagaStatus.Running);
      var s' := s.(saga := Some(saga), ledger := l.(metadata := l.metadata.(pendingSteps := [])));
      ExecuteSteps(env, s', pending[0 := pending[0].(approved := true)])
  }

  /** `reject_pending`. */
  function Reject<W>(env: Env<W>, s: Sys<W>): Turn<W> {
    if s.saga.None? || s.saga.value.status != SagaStatus.AwaitingApproval then Turn(s, Denied) else
    var saga := s.saga.value.(pendingSteps := []);
    var l := WriteStatus(s.ledger, SagaStatus.Compensating);
    var s' := s.(saga := Some(saga), ledger := l.(metadata := l.metadata.(pendingSteps := [])));
    RollBack(env, s', saga.completedSteps)
  }

  // ── Recovery ──────────────────────────────────────────────────────

  /**
   What `recover` does for this saga in a freshly started process. Proceed says that nothing was
   left to do: the saga is unknown or its status is terminal. Denied stands for metadata the
   codec cannot read.
   */
  function Recover<W>(env: Env<W>, s: Sys<W>): Turn<W> {
    var s := s.(saga := None);
    if !Incomplete(s.ledger) then Turn(s, Proceed)
    else if s.ledger.status == Some(SagaStatus.AwaitingApproval) && s.ledger.metadata.pendingSteps != [] then
      RestorePaused(s)
    else if s.ledger.entries == [] then
      Turn(WithStatus(s, SagaStatus.RolledBack), Restored)
    else
      var t := RecoverEffects(env, s, s.ledger.entries);
      if t.end.Proceed? then Turn(WithStatus(t.s, SagaStatus.RolledBack), Restored) else t
  }

  function IsCommitted(e: Entry): bool {
    e.state == EffectState.Committed
  }

  function CommittedSteps(entries: seq<Entry>): seq<SagaStep> {
    if entries == [] then []
    else (if IsCommitted(entries[0]) then [StepFromEffect(entries[0])] else []) + CommittedSteps(entries[1..])
  }

  function RestorePaused<W>(s: Sys<W>): Turn<W> {
    var pending := DeserializeSteps(s.ledger.metadata.pendingSteps);
    if pending.None? then Turn(s, Denied) else
    var m := s.ledger.metadata;
    Turn(s.(saga := Some(SagaTransaction(m.tenantId.GetOr(""), m.goal.GetOr(""), SagaStatus.AwaitingApproval,
                                         m.startTime.GetOr(0.0), CommittedSteps(s.ledger.entries), pending.value))),
         Paused)
  }

  /** `_recover_effects` on the journal snapshot it was given, the newest record first. */
  function RecoverEffects<W>(env: Env<W>, s: Sys<W>, effects: seq<Entry>): Turn<W>
    decreases |effects|
  {
    if effects == [] then Turn(s, Proceed) else
    var t := RecoverEffect(env, s, effects[|effects| - 1]);
    if t.end.Proceed? then RecoverEffects(env, t.s, effects[..|effects| - 1]) else t
  }

  /** A compare-and-set of recovery that is not guarded by a handler: losing it ends recovery. */
  function RecoveryMove<W>(s: Sys<W>, stepId: string, site: Site): Turn<W> {
    var moved := MoveAt(s.ledger, stepId, site);
    if moved.Some? then Turn(s.(ledger := moved.value), Proceed) else Turn(s, Denied)
  }

  function RecoverEffect<W>(env: Env<W>, s: Sys<W>, e: Entry): Turn<W> {
    match e.state
    case Aborted | Compensated => Turn(s, Proceed)
    case CompensationFailed =>
      var error := if e.error != "" then e.error else PRIOR_FAILURE;
      Turn(s.(ledger := DeadLetterRecovery(s.ledger, e.stepName, error)), Quarantined)
    case Prepared => RecoveryMove(s, e.stepId, AbortPrepared)
    case Executing | Ambiguous => RecoverForward(env, s, e)
    case Compensating => RecoverUndo(env, s, e)
    case Applied | Committed => BeginRecoveryCompensation(env, s, e)
  }

  function RecoverForward<W>(env: Env<W>, s: Sys<W>, e: Entry): Turn<W> {
    var r := ResolveForwardEffect(env, s, e);
    match r.verdict
    case SaysNotApplied => RecoveryMove(r.s, e.stepId, AbortUnapplied)
    case SaysApplied =>
      var t := RecoveryMove(r.s, e.stepId, ConfirmApplied);
      if t.end.Proceed? then BeginRecoveryCompensation(env, t.s, e) else t
    case SaysUnknown => QuarantineForward(r.s, e, OUTCOME_UNKNOWN)
    case ResolverRaised => QuarantineForward(r.s, e, RESOLVER_FAILED)
  }

  /** `_mark_ambiguous`. */
  function QuarantineForward<W>(s: Sys<W>, e: Entry, error: string): Turn<W> {
    if e.state == EffectState.Executing then
      var moved := MoveAt(s.ledger, e.stepId, MarkAmbiguous, error);
      if moved.None? then Turn(s, Denied)
      else Turn(s.(ledger := DeadLetterRecovery(moved.value, e.stepName, error)), Quarantined)
    else
      Turn(s.(ledger := DeadLetterRecovery(s.ledger, e.stepName, error)), Quarantined)
  }

  function RecoverUndo<W>(env: Env<W>, s: Sys<W>, e: Entry): Turn<W> {
    var r := ResolveCompensation(env, s, e);
    match r.verdict
    case SaysApplied => RecoveryMove(r.s, e.stepId, RecordCompensated)
    case SaysNotApplied => RecoveryCompensation(env, r.s, e)
    case SaysUnknown => FailRecoveryCompensation(r.s, e, UNDO_UNKNOWN)
    case ResolverRaised => FailRecoveryCompensation(r.s, e, UNDO_RESOLVER_FAILED)
  }

  function BeginRecoveryCompensation<W>(env: Env<W>, s: Sys<W>, e: Entry): Turn<W> {
    var t := RecoveryMove(s, e.stepId, BeginCompensation);
    if t.end.Proceed? then RecoveryCompensation(env, t.s, e) else t
  }

  /** `_recover_compensation` once the record is COMPENSATING. */
  function RecoveryCompensation<W>(env: Env<W>, s: Sys<W>, e: Entry): Turn<W> {
    if CrashesHere(env, s) then Turn(Tick(s), Crashed) else
    var a := ExecuteCompensation(env, Tick(s), e.stepId, e.compensation);
    if !a.reply.Succeeded? then FailRecoveryCompensation(a.s, e, UNDO_FAILED)
    else if CrashesHere(env, a.s) then Turn(Tick(a.s), Crashed)
    else
      var recorded := MoveAt(a.s.ledger, e.stepId, RecordCompensated);
      if recorded.Some? then Turn(Tick(a.s).(ledger := recorded.value), Proceed)
      else FailRecoveryCompensation(Tick(a.s), e, UNDO_FAILED)
  }

  /** `_fail_recovery_compensation`. */
  function FailRecoveryCompensation<W>(s: Sys<W>, e: Entry, error: string): Turn<W> {
    var moved := MoveAt(s.ledger, e.stepId, FailCompensation, error);
    if moved.None? then Turn(s, Denied)
    else Turn(s.(ledger := DeadLetterRecovery(moved.value, e.stepName, error)), Quarantined)
  }
}
