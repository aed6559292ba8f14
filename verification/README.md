# A verified model of the saga engine

This project models the parts of the saga engine in which a small mistake loses data, and proves
what they are for.

* **The coordinator over the write-ahead effect journal.** A saga's step goes PREPARED, EXECUTING,
  APPLIED, COMMITTED, and its rollback COMPENSATING, COMPENSATED, every change being a
  compare-and-set on the journal; recovery in a new process walks the journal backwards. Proved:
  crash anywhere and recover; the shape of the journal at every stop; where a failed rollback stops;
  sagas of many calls; exactly when recovery restores if nobody can be asked about interrupted
  calls; that recovery never reports as restored what is not, and exactly when a call's report can be
  trusted, which the program does not ensure; that restarts during approval are invisible; one
  external call per step under any interleaving of workers, of which the coordinator is one; the
  lifecycle of records; exactly when published idempotency keys can be trusted; what each call does,
  told by the environment's answers and the steps alone: where it pauses, which steps it executes, what
  an approval runs, what each checkpoint leaves, and what every answer of a resolver leads to.
* **The bounded contract verifier and its language.** Proved: the checker accepts exactly the contracts
  that make sense on values of the declared types, the enumeration is the Cartesian product of the
  values the declarations allow, in lexicographic order, the verdict and the counterexample are exact
  in terms of the declarations and of a meaning of conditions and transitions that does not mention the
  evaluator, proved contracts compose in the coordinator's rollback order, and obeying the reported
  constraints repairs the violated condition.
* **DBSCAN in the memory consolidator.** Proved: clusters are the classes of density-connected core
  points in order of their first member, what becomes noise and border, that each neighbourhood is
  computed once, and that the labelling is the only one with these properties.
* **Derived file contracts.** Proved: exactly which requests get a contract; a derived request and its
  restore are exact inverses on every file tree. Sagas of file requests in the program's own sandbox, which raises on a refusal and
  offers no resolver, are put back after every rollback and refusal; after a crash under a live
  status they are put back exactly when the newest unsettled record was not in the middle of a call,
  and are handed to an operator otherwise. With a truthful
  resolver they are put back after every crash of the first call.

## How the model is built

The durable slice of one saga is the value `Journal.Ledger`. Everything outside the coordinator (the
tools and the world they change, the verification gate, the outcome resolvers, the fault injector)
is an `Environment.Env`: its answers are an arbitrary function of the instant, so a statement about
every `Env` covers every behaviour, changing and contradictory answers included. `CoordinatorSpec`
says what each operation does to one saga, as a function from one `Environment.Sys` to the next.
A resolver answers with any value, depending on the truth and the instant; it is truthful if what it
answers means the truth (a boolean, or the word in any letter case), which is defined on the value and
not by the program's reading of it.
`StateStore.SagaStateStore` and `Coordinator.SagaTransactionCoordinator` are the program's classes,
with its loops and updates in place; every method is proved to do to its saga exactly what the
function says, and nothing to any other saga. The theorems are about the functions.

`Env.refusalRaises` says whether a tool that refuses a forward call raises or reports failure. A call
that raises without effect, because it was refused, belongs to the truthful runs: it ends with its
record AMBIGUOUS, after the completed steps were undone.

A crash is the answer `crash` of the environment at a named checkpoint; what is in memory is then
lost. History variables that the program does not have (`Ledger.moves`, `Sys.runs`, `Sys.undos`,
the `starts` and `asked` of the clustering) only record what happened; no branch reads `moves`, and
`runs` and `undos` stand for what the outside remembers of the calls it carried out.

| files | content |
|---|---|
| `Prelude`, `Sagas`, `Journal`, `StepCodec`, `Environment`, `CoordinatorSpec` | data model and specification of the coordinator |
| `StateStore`, `Coordinator` | the classes |
| `Runs`, `Lifecycle`, `Interleaving`, `Workers` | whole runs, sequential and interleaved, and the former as instances of the latter |
| `Progress`, `Resolution` | what a call, a rollback and a recovery do, instant by instant, in any environment |
| `Restoration`, `Rollback`, `Refusal`, `ForwardShape`, `RecoveryShape`, `CrashRecovery` | restoration in a truthful environment, for sagas of one call and of many |
| `Unresolved` | recovery without a resolver |
| `Quarantine`, `Approval`, `Reports`, `Processes` | safety in any environment, restarts, what a reported rollback is worth |
| `Resubmission`, `Claims` | second calls, published keys |
| `ContractDsl`, `ContractTyping`, `ContractCases`, `ContractVerifier`, `ContractRepair`, `ContractComposition` | the contract verifier |
| `ContractMeaning`, `ContractVerdict` | the meaning of contracts apart from the evaluator, and the verdict in those terms |
| `Dbscan` | the clustering |
| `FileContracts` | derived file contracts, and the restoration theorem for them |

## What the proofs found

* **ROLLED_BACK can be reported, and made final, over an effect that is in force.** `execute_saga` has no
  guard on the status it starts under, and a rollback undoes what the process remembers as completed,
  not what the journal holds. `Reports.ReportedRollbackIsFalse`: the first call of a saga raises after
  its effect took place, which leaves its record AMBIGUOUS and the status COMPENSATION_FAILED; the gate
  denies the step of the next call, whose rollback of nothing writes ROLLED_BACK over that status; and
  recovery skips the saga from then on. `Reports.ReportIsTrueIff`: when the completed steps can be
  undone and some step is not skipped, the report of a call is true whatever happens during it if and
  only if, before it, every record of the journal was settled or belonged to a step the process
  remembers as completed. A saga started again over an unresolved journal fails the condition as well.
  Within one process a false report can only follow a call that raised while nothing was completed
  (`Processes.FalseReportNeedsQuarantine`), and after such a call one denied step is enough
  (`Processes.EmptyQuarantineMisleads`).
* **A saga whose rollback undid anything can never be rolled back again.** `completed_steps` is not cleared, so
  every later rollback stops at a record that is COMPENSATED already and ends COMPENSATION_FAILED,
  while a later call that succeeds writes COMMITTED over a journal whose earlier records are
  COMPENSATED (`Processes.NoSecondRollback`).
* **A second call on a committed saga is not recovered.** `execute_saga` never writes RUNNING when it
  is entered, so a later call on the same saga runs under the durable status COMMITTED that the first
  one left, and `list_incomplete` skips it after a crash. `Resubmission.CrashIsTakenUpIff` shows that
  a crash of a call is taken up by recovery, at every checkpoint, if and only if the durable status at
  its start is a live one. The service submits each step of a saga in a call of its own, so every step
  after the first runs this way. `CrashRecovery.CrashInAnyCall` says what recovery does in either case.
* **The same holds for a call on a paused saga.** With status AWAITING_APPROVAL and pending steps on
  record, a crash in the middle of a call leaves an EXECUTING record, and `recover` restores the pause
  without looking at the journal. `CrashRecovery.Resolvable` excludes this state too.
* **A key can be published while another record carrying it is EXECUTING.** `Claims.SharedKeyGoesStale`
  gives the run: the process dies in a step, the saga is started again without recovery, and another
  step commits under the same key. Recovery would then take the interrupted call for applied. A call
  whose steps can run keeps the claims right, whatever happens during it, if and only if before it no
  EXECUTING record of another step carries the key of one of its steps (`Claims.CallKeepsClaimsIff`);
  a retry under a new step id is safe as soon as the interrupted call is resolved. Over whole runs the
  condition on each submission suffices in any environment (`Claims.RunKeepsClaims`).
* **The program's own sandbox cannot be asked about interrupted calls.** It has no `resolve_effect`, no
  `resolve_compensation` and no `execute_idempotent`. `Unresolved.UnaidedRecoveryIff`: recovery then
  restores exactly when the newest unsettled record is neither EXECUTING nor COMPENSATING; otherwise it
  gives up on that record and changes nothing else. A recovery that itself dies while undoing leaves
  such a record.
* **Memory and ledger disagree after a raised call.** The rollback of the older steps first sets both
  to ROLLED_BACK; then the durable status alone is overwritten by COMPENSATION_FAILED. The predicate
  `Quarantine.QuarantinedLast` states both.
* **A stale file precondition raises instead of failing.** The handlers refuse by an exception, which
  the coordinator treats as an outcome in doubt although nothing changed; such a step ends AMBIGUOUS
  rather than ABORTED (`FileContracts.StaleRequestIsQuarantined`).

## Model

| member | source | states |
|---|---|---|
| CrashRecovery.CrashAnywhereThenRestored | src/orchestrator/coordinator.py:84-141 | A fresh saga in a truthful environment, with any approvals, rejections and restarts, commits, pauses, is rolled back, is quarantined with the initial world because a refusal was raised, or crashes; after a crash at any checkpoint, any number of crashed recoveries and one that lives leave every record ABORTED or COMPENSATED, the status ROLLED_BACK, the initial world, and each effect that took place undone exactly once |
| CrashRecovery.EveryCallOfASaga | src/orchestrator/coordinator.py:404-612 | A saga of any number of calls: while they commit, the world is the fold of all actions; a failure in any call undoes the effects of all; one compensation that fails stops the rollback right after the state it belongs to, every later step being undone |
| CrashRecovery.CrashInAnyCall | src/orchestrator/coordinator.py:84-141 | A crash in any call of a saga: recovery restores the state before the first call, unless the durable status still says COMMITTED from the call before, in which case recovery does nothing |
| CrashRecovery.ServeCallsEnd | src/orchestrator/coordinator.py:404-612 | Every call of a saga keeps the journal and the world in shape, or ends in one of the good ends |
| CrashRecovery.JournalShapeAtEveryStop | src/orchestrator/coordinator.py:495-558 | At every checkpoint and pause of a fresh saga: a prefix of COMMITTED records, at most one in flight, then settled ones; the world is the fold of the actions in force; where refusals are raised, possibly a last EXECUTING record without effect |
| CrashRecovery.RollbackLandsOnAVisitedState | src/orchestrator/coordinator.py:655-763 | A rollback of k completed steps, with or without the record of a failed step behind them, whose compensation j is the first to fail cleanly stops in the world right after step j, records before j COMMITTED, j COMPENSATION_FAILED, the later completed ones COMPENSATED; with no failure it ends in the initial world |
| CrashRecovery.RecoverEnd | src/orchestrator/coordinator.py:110-114 | From any journal of the invariant shape, one recovery either crashes in a state of that shape or restores everything |
| CrashRecovery.RepeatedRecoveryEnd | src/orchestrator/coordinator.py:84-141 | The same for any number of recoveries that die |
| CrashRecovery.ServeEnd | src/orchestrator/coordinator.py:624-652 | Approvals, rejections and restarts in any order keep a saga recoverable, paused on record, committed, or undone |
| CrashRecovery.ResumeEnd | src/orchestrator/coordinator.py:624-637 | Approving a pause ends in one of the good ends |
| CrashRecovery.RejectEnd | src/orchestrator/coordinator.py:639-652 | Rejecting a pause undoes everything, crashes recoverably, or stops at a failed compensation |
| CrashRecovery.RestartEnd | src/orchestrator/coordinator.py:91-109 | A restart of a paused saga reads the pause back from the ledger |
| CrashRecovery.PauseIsDurable | src/orchestrator/coordinator.py:475-492 | A pause has written exactly the pending steps it keeps in memory |
| Restoration.UndoCall | src/orchestrator/coordinator.py:687-706 | The compensation call of the latest effect in force takes the world back by exactly that effect |
| Restoration.CompensateAllShape | src/orchestrator/coordinator.py:666-721 | A rollback from the invariant shape ends undone, stuck on a visited state, or crashed in the shape |
| ForwardShape.ExecuteStepsShape | src/orchestrator/coordinator.py:423-612 | The step loop keeps the invariant shape at every crash and ends in a good end |
| ForwardShape.CallStepShape | src/orchestrator/coordinator.py:515-558 | One external call and what follows it keep the invariant |
| RecoveryShape.RecoverEffectShape | src/orchestrator/coordinator.py:198-261 | Recovering one record of the journal keeps the invariant and settles that record |
| RecoveryShape.RecoverEffectsShape | src/orchestrator/coordinator.py:194-262 | The backward walk over the snapshot undoes everything or crashes in the shape |
| RecoveryShape.RecoverWaitingShape | src/orchestrator/coordinator.py:194-262 | The same after a crash in the rollback that follows a raised refusal |
| Refusal.RollbackTwins | src/orchestrator/coordinator.py:666-721 | A rollback neither reads nor writes the last record unless it names it |
| Refusal.RefusalShape | src/orchestrator/coordinator.py:577-604 | A raised refusal: the completed steps are undone first, then its record is quarantined, or the process dies in between in a state recovery can handle |
| Rollback.AbandonQuiet | src/orchestrator/coordinator.py:655-763 | In any environment a rollback starts no call, publishes no key, makes no record EXECUTING and forgets no completed step |
| Rollback.RecoverQuiet | src/orchestrator/coordinator.py:84-141 | In any environment recovery publishes no key and makes no record EXECUTING |
| Unresolved.UnaidedRecoveryIff | src/orchestrator/coordinator.py:264-295 | Without resolver and repetition, or with a resolver that raises or whose answers mean neither applied nor not applied, recovery restores exactly when the newest unsettled record is neither EXECUTING nor COMPENSATING; otherwise it gives up on that record and changes nothing else; a recovery that dies leaves such a record |
| Unresolved.StoppedWorldIsVisited | src/orchestrator/coordinator.py:495-558 | Where a saga is stopped the world is one it visited; with a record in doubt, the one before or after that record's step |
| Unresolved.UnaidedSaga | src/orchestrator/coordinator.py:84-141 | A saga of any number of calls without resolver: committed, paused, undone, or quarantined with the initial world; after a crash under a live status, restored exactly when no record is in doubt; otherwise recovery gives up on that record with a dead letter, touches nothing else, and the world is a visited state |
| Unresolved.RefusalIsQuarantined | src/orchestrator/coordinator.py:577-604 | A refusal by exception ends with its record AMBIGUOUS, COMPENSATION_FAILED and the initial world, though the call changed nothing |
| Quarantine.RecoveryNeverFalselyClaims | src/orchestrator/coordinator.py:110-114 | For any resolver and any tool: recovery reports ROLLED_BACK only with every record ABORTED or COMPENSATED; when it gives up it leaves COMPENSATION_FAILED, a dead letter for the record it stopped at, newer records settled and older ones untouched |
| Quarantine.RecoverEffectsHandled | src/orchestrator/coordinator.py:194-262 | The backward walk loses no compare-and-set, and stops at the first record in doubt |
| Quarantine.ExecutionNeverFalselyClaims | src/orchestrator/coordinator.py:577-604 | For a saga all of whose records are committed and remembered as completed, in any environment: an execution reported as rolled back has settled every record; it ends quarantined only if some forward call raised, and if one did, always unless the process dies; quarantine leaves AMBIGUOUS, COMPENSATION_FAILED and a dead letter; no crash sees ROLLED_BACK written before its time |
| Reports.ReportIsTrueIff | src/orchestrator/coordinator.py:404-464 | For any saga in memory whose completed steps can be undone, and a call with a step that is not skipped: a reported ROLLED_BACK means that every record is settled, whatever happens during the call, if and only if before the call every record was settled or named by a completed step |
| Reports.ExecuteReportsTruly | src/orchestrator/coordinator.py:404-612 | That condition suffices for any call in any environment, and a call that does not fail keeps it |
| Reports.DeniedCallReportsFalsely | src/orchestrator/coordinator.py:447-464 | Without it, a call whose first step the gate denies reports ROLLED_BACK with a record unsettled |
| Processes.FalseReportNeedsQuarantine | src/orchestrator/coordinator.py:404-652 | Over any calls, approvals and rejections of one process, in any environment, a false ROLLED_BACK can only follow an operation in which a call raised while nothing was completed |
| Processes.EmptyQuarantineMisleads | src/orchestrator/coordinator.py:577-604 | After such a call, a denied next step is reported as ROLLED_BACK falsely |
| Processes.StartIsTrustworthy | src/orchestrator/coordinator.py:382-402 | A saga just started over an empty journal meets the condition |
| Reports.ReportedRollbackIsFalse | src/orchestrator/coordinator.py:417-464 | The run: a call raises with its effect in force, the next is denied, the saga is ROLLED_BACK with its record AMBIGUOUS and the effect in the world, and recovery skips it |
| Reports.RollbackSettles | src/orchestrator/coordinator.py:666-721 | A rollback that goes through has settled the records of the listed steps and touched no other |
| Processes.RollbackSpoils | src/orchestrator/coordinator.py:655-763 | After a rollback of anything, done or failed, the process remembers a step no rollback can undo |
| Processes.NoSecondRollback | src/orchestrator/coordinator.py:666-763 | From then on, in any environment, no call ends ROLLED_BACK: it ends COMPENSATION_FAILED, or COMMITTED over records that stay COMPENSATED |
| Quarantine.AbandonAmbiguousSafe | src/orchestrator/coordinator.py:589-604 | A raised forward call quarantines its effect, after the older steps were compensated, unless the process dies on the way |
| Quarantine.CallStepSafe | src/orchestrator/coordinator.py:515-604 | Success, reported failure and exception of one call, in any environment |
| Approval.RestartRebuildsMemory | src/orchestrator/coordinator.py:91-109 | Recovery rebuilds the record of a paused saga from the ledger alone |
| Approval.RestartIsInvisible | src/orchestrator/coordinator.py:624-652 | Approving or rejecting after a restart reaches the same world, ledger, history and answer as without it, in every environment |
| Approval.FreshPauseSurvivesRestart | src/orchestrator/coordinator.py:84-109 | The same for every fresh saga that pauses |
| Approval.PausesAreOnRecord | src/orchestrator/coordinator.py:475-492 | Every pause of a saga whose records are all committed is of that kind |
| Approval.ResumedPausesAreOnRecord | src/orchestrator/coordinator.py:624-637 | So is the next pause after an approval |
| Approval.ResumeSafe | src/orchestrator/coordinator.py:624-637 | Approving a pause ends safely in any environment |
| Approval.RejectPauseSafe | src/orchestrator/coordinator.py:639-652 | Rejecting a pause ends safely in any environment |
| Approval.LifeNeverFalselyClaims | src/orchestrator/coordinator.py:404-652 | In any environment one call of a fresh saga with any approvals, rejections and restarts is reported as rolled back only with every record settled, and every pause is on record |
| Approval.RestartsAreInvisible | src/orchestrator/coordinator.py:84-109 | Leaving out all restarts from the decisions about a saga changes neither the world nor the ledger, the history or the answer |
| Progress.CommittedMeansExecuted | src/orchestrator/coordinator.py:423-612 | A call that commits has executed every step of its list whose key was not published, in order, each once, and nothing else: the world is the fold of their actions, and each has a COMMITTED record with its action, compensation and key |
| Progress.StoppedAt | src/orchestrator/coordinator.py:423-612 | A call that ends otherwise has executed just the steps before some step that is not skipped, and ends as that step does |
| Progress.PausesAtFirst | src/orchestrator/coordinator.py:475-492 | When the first step that is not skipped is admitted and lacks an approval it needs, the call ends Paused: memory and metadata hold that step and all after it, only its status changed; journal, world and history are untouched |
| Progress.PausedOnlyThere | src/orchestrator/coordinator.py:475-492 | A call pauses only at such a step, the steps before it having been executed, and holds just that step and those after it |
| Progress.RollsBackAtFirst | src/orchestrator/coordinator.py:446-464 | When the gate or the preflight does not admit that step, the call is the rollback of what was completed |
| Progress.CallTable | src/orchestrator/coordinator.py:494-539 | A new step, instant by instant: what each checkpoint up to the call leaves, and which answers of the call lead to quarantine, to ABORTED with a rollback, or on |
| Progress.RecordTable | src/orchestrator/coordinator.py:540-558 | After a success: APPLIED at the next checkpoint, COMMITTED with the key published at the one after it, and then the step is executed |
| Progress.RegistrationTable | src/orchestrator/state_store.py:352-362 | Registration appends a new record, accepts an identical one unchanged, and refuses an id reused for anything else |
| Progress.RepeatTable | src/orchestrator/coordinator.py:494-514 | A step whose id is in the journal is not called again, unless its identical record is still PREPARED; the call rolls back |
| Progress.StartMeans | src/orchestrator/coordinator.py:382-402 | A saga is started once per process, RUNNING in memory and on record, with nothing completed; goal and tenant are kept |
| Progress.ResumeIs | src/orchestrator/coordinator.py:624-637 | An approval is refused unless steps are waiting; otherwise the pause is cleared in memory and on record and all pending steps are submitted, the first one approved |
| Progress.ApprovedStepsAreExecuted | src/orchestrator/coordinator.py:624-637 | An approval that commits has executed every pending step whose key was not published, each once, with a COMMITTED record carrying its action, compensation and key |
| Progress.ApprovedStepIsExecuted | src/orchestrator/coordinator.py:631-637 | When nothing goes wrong and the approved step is new, unpublished and accepted by its tool, exactly its action is carried out and recorded first |
| Progress.SmoothCommits | src/orchestrator/coordinator.py:423-612 | A list whose steps can all run commits when nothing goes wrong |
| Progress.RejectIs | src/orchestrator/coordinator.py:639-652 | A rejection is refused unless the saga awaits approval; otherwise it is the rollback of what was completed, with nothing pending |
| Progress.RejectUndoes | src/orchestrator/coordinator.py:639-652 | When the completed steps can be undone and nothing goes wrong, a rejection undoes exactly their effects |
| Resolution.CompensateTable | src/orchestrator/coordinator.py:666-686 | A rollback undoes APPLIED and COMMITTED records, after marking them, and COMPENSATING ones; any other record, or none, is a failed compensation |
| Resolution.UndoTable | src/orchestrator/coordinator.py:687-721 | Undoing one record, instant by instant: the checkpoints around the call, which answers are failures, COMPENSATED at the last checkpoint |
| Resolution.FailureTable | src/orchestrator/coordinator.py:723-763 | A failed compensation sets both statuses, leaves one dead letter, and marks its record if it was COMPENSATING |
| Resolution.RollbackIsTold | src/orchestrator/coordinator.py:655-763 | After a rollback memory and record agree on ROLLED_BACK or COMPENSATION_FAILED, the latter with one dead letter for a step it was to undo; a crash in it is found under COMPENSATING |
| Resolution.RaisedTells | src/orchestrator/coordinator.py:577-604 | After a raised call and its rollback: AMBIGUOUS, COMPENSATION_FAILED on record, a last dead letter that names the step, memory untouched |
| Resolution.RecoverTable | src/orchestrator/coordinator.py:89-139 | Recovery takes up sagas that are PENDING, RUNNING, COMPENSATING or AWAITING_APPROVAL, restores a pause with steps on record, resolves the journal of any other, and writes ROLLED_BACK only when all of it was resolved |
| Resolution.ForwardTable | src/orchestrator/coordinator.py:210-233 | An interrupted call: a published key or an answer that means applied leads to its compensation, an answer that means not applied to ABORTED, any other answer or an exception to quarantine; without a resolver a keyed call may be repeated on an idempotent receiver |
| Resolution.UndoingTable | src/orchestrator/coordinator.py:234-256 | An interrupted compensation: an answer that means applied settles it, one that means not applied repeats it, anything else quarantines it |
| Resolution.SettledTable | src/orchestrator/coordinator.py:198-209 | What recovery does with records in every other state |
| Resolution.RecoveryUndoTable | src/orchestrator/coordinator.py:297-330 | A compensation during recovery, instant by instant |
| Environment.AnswersAreUnderstood | src/orchestrator/coordinator.py:287-295 | True, and APPLIED in any letter case, are read as applied; False, and NOT_APPLIED in any letter case, as not applied; everything else as no answer |
| StepCodec.StepRoundTrip | src/orchestrator/coordinator.py:143-178 | A pending step is read back exactly as it was written |
| StepCodec.StepsRoundTrip | src/orchestrator/coordinator.py:96-107 | So is the list of pending steps |
| StepCodec.AbsentReadsAsDefault | src/orchestrator/coordinator.py:161-178 | An optional item of a stored step that is missing is read as its default |
| StepCodec.RequiredItems | src/orchestrator/coordinator.py:161-178 | Id, name, action and compensation cannot be missing |
| Resubmission.ResubmissionChangesNothing | src/orchestrator/coordinator.py:426-440 | Submitting a fully keyed committed list again answers True and changes nothing, the clock of external interactions included |
| Resubmission.CommittedListIsPublished | src/orchestrator/coordinator.py:555-558 | When a keyed list commits, all its keys are published |
| Resubmission.CrashIsTakenUpIff | src/orchestrator/state_store.py:907-925 | Recovery takes up every crash of a call exactly when the durable status at its start is live, which `execute_saga` does not ensure |
| Claims.CallKeepsClaimsIff | src/orchestrator/coordinator.py:264-268 | For a call whose steps can run: no EXECUTING record carries a published key after it, whatever happens during it, if and only if before it no EXECUTING record of another step carries the key of one of its steps |
| Claims.ExecuteKeepsClaims | src/orchestrator/coordinator.py:423-440 | That condition suffices for any call in any environment, wherever it ends |
| Claims.RunKeepsClaims | src/orchestrator/coordinator.py:264-268 | Over any run with any crashes, with that condition on what each operation submits, no EXECUTING record ever carries a published key |
| Claims.OwnKeysAreNeverStale | src/orchestrator/coordinator.py:264-268 | In particular none does when no two records share a key |
| Claims.SharedKeyGoesStale | src/orchestrator/coordinator.py:382-402 | A concrete run in which two steps share a key and the claim fails |
| Claims.CommitKeepsClaimsIff | src/orchestrator/state_store.py:459-467 | A commit makes a claim stale exactly when an EXECUTING record carries its key |
| Claims.NoStaleClaimAtAnyStop | src/orchestrator/coordinator.py:264-268 | No fresh saga in a truthful environment stops with a stale claim |
| Claims.NeverClimbs | src/orchestrator/state_store.py:364-394 | After a change, the rank of a record stays at or below the state that change led to |
| Lifecycle.SitesFollowEdges | src/orchestrator/coordinator.py:194-353 | Every call site of `transition_effect` moves a record along an edge of the lifecycle graph |
| Lifecycle.EdgesDescend | src/orchestrator/state_store.py:55-78 | Every edge lowers the rank of the state |
| Lifecycle.EveryRunFollowsTheLifecycle | src/orchestrator/coordinator.py:194-353 | Over any run with any crashes every change follows the graph, starts where the last one of that record ended, and n records change at most 6n times |
| Lifecycle.JournalIsAppendOnly | src/orchestrator/state_store.py:317-362 | No run alters, reorders or drops the action, compensation, name or key of a journaled record |
| Lifecycle.PublishedKeysAreTheCommittedOnes | src/orchestrator/state_store.py:396-467 | A key is published exactly when a record carrying it reached COMMITTED, and at most one per key ever does |
| Runs.RunKeeps | src/orchestrator/coordinator.py:84-763 | A run changes the ledger only through the primitives of the journal: what they keep, every run keeps |
| Interleaving.AtMostOneCallPerStep | src/orchestrator/coordinator.py:495-525 | For any interleaving of workers, deaths, stale recoveries and resubmissions there is at most one external call per step id, and the journal holds each call's action and compensation |
| Interleaving.CallsAreWrittenAhead | src/orchestrator/state_store.py:352-394 | A worker about to call finds its own record in the journal, and nobody has called for that step |
| Interleaving.InterleavedRunsFollowTheLifecycle | src/orchestrator/state_store.py:364-394 | The lifecycle and the bound 6n hold under any interleaving |
| Workers.PrepareActs | src/orchestrator/coordinator.py:494-604 | A step of the coordinator is a sequence of one worker's atomic actions, whoever else is at work, and what it runs is its call |
| Workers.PerformActs | src/orchestrator/coordinator.py:84-763 | So is every operation of the coordinator |
| Workers.EffectsAtMostOnce | src/orchestrator/coordinator.py:495-525 | Over all runs of the coordinator without idempotent repetition, with any crashes and resubmissions, the action of a step takes effect at most once, and the journal holds it |
| StateStore.SagaStateStore.constructor | src/orchestrator/state_store.py:88-120 | A new store knows no saga |
| StateStore.SagaStateStore.WriteTransactionState | src/orchestrator/state_store.py:241-259 | Sets the status, merges the metadata, changes no other saga |
| StateStore.SagaStateStore.FindEffect | src/orchestrator/state_store.py:512-516 | The first record with the step id |
| StateStore.SagaStateStore.PrepareEffect | src/orchestrator/state_store.py:317-362 | Appends the record, accepts an identical one, refuses a reused identity |
| StateStore.SagaStateStore.TransitionEffect | src/orchestrator/state_store.py:364-394 | Compare-and-set of one record |
| StateStore.SagaStateStore.CommitEffect | src/orchestrator/state_store.py:396-467 | APPLIED to COMMITTED together with the publication of the key, or nothing |
| StateStore.SagaStateStore.StepAlreadyCommitted | src/orchestrator/state_store.py:718-734 | Whether the key is published for this saga |
| StateStore.SagaStateStore.PushDeadLetter | src/orchestrator/state_store.py:756-785 | Appends one dead letter of this saga |
| StateStore.SagaStateStore.ListIncomplete | src/orchestrator/state_store.py:907-925 | The sagas whose status is not terminal, each once |
| Coordinator.SagaTransactionCoordinator.ExecuteSaga | src/orchestrator/coordinator.py:404-612 | Does what the specification of the step loop says, and nothing to other sagas |
| Coordinator.SagaTransactionCoordinator.AttemptStep | src/orchestrator/coordinator.py:442-604 | One iteration of the loop: gate, preflight, approval, journaled call, as `Progress.PausesAtFirst`, `Progress.RollsBackAtFirst` and `Progress.CallTable` say |
| Coordinator.SagaTransactionCoordinator.PrepareStep | src/orchestrator/coordinator.py:494-514 | Write-ahead record, checkpoint, claim |
| Coordinator.SagaTransactionCoordinator.CallStep | src/orchestrator/coordinator.py:515-539 | The external call, with its three outcomes, as `Progress.CallTable` says |
| Coordinator.SagaTransactionCoordinator.RecordStep | src/orchestrator/coordinator.py:540-558 | APPLIED, completed list, COMMITTED with the key |
| Coordinator.SagaTransactionCoordinator.HandleStepFailure | src/orchestrator/coordinator.py:577-604 | Rollback of the completed steps, then quarantine of an effect in doubt |
| Coordinator.SagaTransactionCoordinator.Pause | src/orchestrator/coordinator.py:475-492 | Status, pending steps in memory and on record, as `Progress.PausesAtFirst` says |
| Coordinator.SagaTransactionCoordinator.ExecuteCompensations | src/orchestrator/coordinator.py:655-721 | Rollback in reverse order of completion |
| Coordinator.SagaTransactionCoordinator.CompensateStep | src/orchestrator/coordinator.py:666-721 | Marking and undoing of one completed step |
| Coordinator.SagaTransactionCoordinator.HandleCompensationFailure | src/orchestrator/coordinator.py:723-763 | Status, mark and dead letter of a failed compensation |
| Coordinator.SagaTransactionCoordinator.StartTransactionLog | src/orchestrator/coordinator.py:382-402 | A new transaction in memory, RUNNING on record |
| Coordinator.SagaTransactionCoordinator.ResumeAfterApproval | src/orchestrator/coordinator.py:624-637 | Approval of the head of the pending steps, which are then executed, as `Progress.ResumeIs` and `Progress.ApprovedStepsAreExecuted` say |
| Coordinator.SagaTransactionCoordinator.RejectPending | src/orchestrator/coordinator.py:639-652 | Rejection and rollback |
| Coordinator.SagaTransactionCoordinator.ResolveForwardEffect | src/orchestrator/coordinator.py:264-278 | Published key, resolver, idempotent repetition, unknown, in this order, as `Resolution.ForwardTable` says |
| Coordinator.SagaTransactionCoordinator.RecoverCompensation | src/orchestrator/coordinator.py:297-330 | Undoing one record during recovery |
| Coordinator.SagaTransactionCoordinator.MarkAmbiguous | src/orchestrator/coordinator.py:332-342 | Quarantine of a forward effect whose outcome is unknown |
| Coordinator.SagaTransactionCoordinator.RecoverEffect | src/orchestrator/coordinator.py:198-261 | One record of the backward walk |
| Coordinator.SagaTransactionCoordinator.RecoverEffects | src/orchestrator/coordinator.py:194-262 | The backward walk |
| Coordinator.SagaTransactionCoordinator.RecoverSaga | src/orchestrator/coordinator.py:89-139 | Recovery of one saga: pause restored, journal resolved, status written |
| Coordinator.SagaTransactionCoordinator.Recover | src/orchestrator/coordinator.py:84-141 | The incomplete sagas go through recovery one after the other, each in the world the one before left, until all are done or one is stopped by a crash or a lost compare-and-set; the others are untouched, and the result counts those rolled back |
| Coordinator.RecoverEnds | src/orchestrator/coordinator.py:84-141 | Recovery of one saga writes ROLLED_BACK exactly when it reports it |
| ContractTyping.ExpressionSound | src/contracts/verifier.py:500-525 | An expression that was given a type evaluates, to a value of that type |
| ContractTyping.ConditionSound | src/contracts/verifier.py:477-498 | A valid condition evaluates without error |
| ContractTyping.TransitionSound | src/contracts/verifier.py:256-319 | A valid transition goes through and leads to a state of the declared types |
| ContractCases.DomainSize | src/contracts/verifier.py:428-432 | The number of records |
| ContractCases.DomainsAre | src/contracts/verifier.py:252-254 | The domains, one per variable in order |
| ContractCases.DomainsFail | src/contracts/verifier.py:252-254 | Otherwise the error of the first variable that has no domain |
| ContractCases.EveryChoiceIsEnumerated | src/contracts/verifier.py:419-425 | Every choice of values is enumerated, at its lexicographic position |
| ContractCases.EnumerationIsLexicographic | src/contracts/verifier.py:419-425 | Positions follow the lexicographic order, so no choice comes twice |
| ContractCases.PickIsInDomain | src/contracts/verifier.py:382-404 | Enumerated records take their values from the domains, which `ContractCases.DomainTable` describes |
| ContractCases.DomainTable | src/contracts/verifier.py:382-404 | Which declarations have a domain, and the error of each that has none; a domain holds the allowed values and no others: listed ones in the order of the list, false and true, or the integers between both bounds ascending, each once |
| ContractCases.RecordsAreTheAllowed | src/contracts/verifier.py:419-425 | The enumerated records are exactly those that give every declared variable, and nothing else, a value its declaration allows |
| ContractCases.SizeIsProduct | src/contracts/verifier.py:428-432 | Their number is the product of the numbers of allowed values |
| ContractVerifier.Verify | src/contracts/verifier.py:113-212 | The loops and early returns compute the certificate that `ContractVerdict` is about |
| ContractVerdict.RefusalTable | src/contracts/verifier.py:113-136 | What is not enumerated, and why: INVALID, UNSUPPORTED or UNKNOWN, decided by well-formedness, irreversible effects, the first variable at fault, or the number of cases |
| ContractVerdict.CasesAreTheAllowed | src/contracts/verifier.py:138-142 | The cases gone through are exactly those the declarations allow |
| ContractVerdict.VerdictTable | src/contracts/verifier.py:138-212 | PROVED if and only if some allowed case meets the precondition and each one that does meets the postcondition and, after compensation, the restoration; REJECTED if and only if one does not, the counterexample being one; INVALID if and only if none starts; stated by declarations and meanings, without domains and evaluator |
| ContractVerifier.CheckCases | src/contracts/verifier.py:138-205 | The nested loops compute the scan of the list of cases |
| ContractVerifier.CaseAt | src/contracts/verifier.py:138-142 | The cases are the pairs of state and input records, in the order of the loops |
| ContractVerifier.JudgementIsExact | src/contracts/verifier.py:143-190 | One case is skipped, passed or rejected exactly as its precondition, postcondition and restoration say, and never raises |
| ContractVerifier.ScanIsExact | src/contracts/verifier.py:138-212 | The verdict on a list of typed cases is exact |
| ContractVerifier.VerdictIsExact | src/contracts/verifier.py:113-212 | Of the enumerated cases, which `ContractVerdict.CasesAreTheAllowed` describes: PROVED if and only if some case is admissible and every admissible one meets postcondition and restoration; REJECTED carries the first failing case, its position and the admissible count up to it |
| ContractMeaning.MeaningOfExpression | src/contracts/verifier.py:342-369 | A typed expression evaluates to the number it stands for, an integer exactly when no part of it is real |
| ContractMeaning.StringLessIs | src/contracts/verifier.py:435-448 | Strings are ordered by their first difference |
| ContractMeaning.MeaningOfCondition | src/contracts/verifier.py:321-340 | A valid condition evaluates to the truth of the proposition it states |
| ContractMeaning.MeaningOfTransition | src/contracts/verifier.py:306-319 | A valid transition leads exactly to the state in which each assigned variable has its value from the state before, and every other its own |
| ContractMeaning.MeaningOfCase | src/contracts/verifier.py:138-183 | Admissibility, postcondition and restoration of a case are what the contract means |
| ContractMeaning.TypeIsExact | src/contracts/verifier.py:500-525 | A type is inferred for exactly the expressions that evaluate on values of the declared types, and it is that of the result |
| ContractMeaning.ValidConditionIsExact | src/contracts/verifier.py:477-498 | A condition is valid if and only if every comparison in it is between values that can be ordered |
| ContractMeaning.ValidationIsExact | src/contracts/verifier.py:256-297 | The checker accepts exactly the contracts that make sense on values of the declared types; irreversible effects make any other well-declared one UNSUPPORTED, and the rest is INVALID |
| ContractMeaning.RepairsSuffice | src/contracts/verifier.py:371-379 | A retry that obeys every reported constraint, and turns no other comparison false, meets the violated condition |
| ContractRepair.ListedAreFalse | src/contracts/verifier.py:537-560 | Every listed comparison is false in the given state, and a true condition lists none |
| ContractRepair.RepairSuffices | src/contracts/verifier.py:537-560 | Making all listed comparisons true, without another one turning false, makes the condition true |
| ContractComposition.DemandsRestore | src/contracts/verifier.py:321-340 | A valid restoration that equates every state variable with its original, in either orientation, alone or anywhere in nested conjunctions, holds only where all variables are back |
| ContractComposition.UndoOne | src/contracts/verifier.py:138-183 | A proved contract's compensation restores every state it may start in, whatever other variables there are |
| ContractComposition.UndoChainRestores | src/orchestrator/coordinator.py:666-721 | So do the compensations of any prefix of a chain, latest first |
| ContractComposition.ProvedContractsCompose | src/contracts/verifier.py:138-183 | Forward transitions and then all compensations in reverse order return the initial state, without an evaluation error |
| Dbscan.Label | src/memory/consolidation.py:174-205 | Labels with the clustering properties for any matrix, each neighbourhood computed exactly once |
| Dbscan.GrowCluster | src/memory/consolidation.py:187-204 | The work list completes one cluster; seeds never repeat |
| Dbscan.NewSeeds | src/memory/consolidation.py:198-203 | The queue receives exactly the unlabelled points within reach that were not queued |
| Dbscan.Pop | src/memory/consolidation.py:190-203 | One round of the work list keeps its invariants |
| Dbscan.Buckets | src/memory/consolidation.py:207-211 | One bucket per occurring id, its episodes in index order |
| Dbscan.Cluster | src/memory/consolidation.py:163-211 | The returned buckets are those of a clustering, and their keys are 0 to k - 1 |
| Dbscan.DensityConnectivity | src/memory/consolidation.py:163-205 | With a symmetric matrix two core points share a label if and only if a chain of core points, each within reach of the last, joins them |
| Dbscan.IdsFollowTheLeaders | src/memory/consolidation.py:181-205 | Cluster ids follow the order of each cluster's smallest core point |
| Dbscan.LabellingIsDetermined | src/memory/consolidation.py:163-205 | With a symmetric matrix no other labelling has these properties |
| Dbscan.NoiseIsUnreachable | src/memory/consolidation.py:184-193 | A point is noise if and only if it is not core and in no core point's neighbourhood |
| Dbscan.BorderTakesTheLowest | src/memory/consolidation.py:190-195 | A border point has the lowest id among the clusters that reach it |
| Dbscan.CoreMeansCompany | src/memory/consolidation.py:163-168 | With two samples a point is core exactly when another one is within reach |
| Dbscan.NoBorderPoints | src/memory/consolidation.py:163-168 | With two samples every clustered point is core |
| Dbscan.ClustersAreComponents | src/memory/consolidation.py:163-211 | With two samples clusters are the connected components with at least two points |
| Dbscan.NoBucketIsSkipped | src/memory/consolidation.py:133-135 | The size check of the cycle never skips a bucket |
| FileContracts.PreconditionTable | src/orchestrator/sandbox.py:197-206 | For any supplied preconditions: met, two supplied, expected absent, or not the expected content |
| FileContracts.WriteIff | src/orchestrator/sandbox.py:157-186 | A write goes through exactly with a contained path, a text, and its precondition met, and sets that file alone |
| FileContracts.DeleteIff | src/orchestrator/sandbox.py:209-224 | So does a deletion, which without a path succeeds and does nothing |
| FileContracts.RestoreIff | src/orchestrator/sandbox.py:246-268 | A restore goes through exactly with its precondition met and, if there was a file, its text supplied, which it puts back |
| FileContracts.DerivedIff | src/main.py:339-369 | A validated request gets a contract if and only if its path is in the workspace and the file there is absent or at most 1,000,000 characters long; otherwise the error says which of the two fails |
| FileContracts.MissingIff | src/main.py:339-369 | A request that was not validated fails on its missing argument exactly where that argument is needed |
| FileContracts.ForwardFailsAt | src/main.py:339-369 | A chain of derived requests fails only at one whose path is not in the workspace or whose file is too long |
| FileContracts.PreconditionIsExact | src/orchestrator/sandbox.py:197-206 | The preconditions of a derived request are met exactly on the trees that agree with the observed one at its path, and the refusal tells whether the file has appeared, or has changed or gone |
| FileContracts.FileSystem.HandleWriteFile | src/orchestrator/sandbox.py:157-186 | The file is replaced, or the call is refused and nothing changes |
| FileContracts.FileSystem.HandleDeleteFile | src/orchestrator/sandbox.py:209-224 | The file is gone, or the call is refused and nothing changes |
| FileContracts.FileSystem.HandleRestoreFile | src/orchestrator/sandbox.py:246-260 | The preimage is back, or the call is refused and nothing changes |
| FileContracts.FileSystem.DeriveFileContract | src/main.py:339-369 | The guarded arguments and the compensation, or the error, as `FileContracts.DerivedIff` and `FileContracts.RequestThenRestore` say |
| FileContracts.GuardedRequestIsExact | src/main.py:339-369 | A guarded request goes through exactly on the trees that agree with the observed one at its path, and changes that path alone as the request says |
| FileContracts.DerivedRestoreIsExact | src/orchestrator/sandbox.py:246-268 | The restore goes through exactly where the path still holds what the request left, and puts back the observed file alone |
| FileContracts.RequestThenRestore | src/main.py:339-369 | Request and restore are exact inverses on every tree |
| FileContracts.FreshRequestGoesThrough | src/main.py:339-369 | A request derived just now is not refused |
| FileContracts.RestoreTwice | src/orchestrator/sandbox.py:246-268 | A finished restore, repeated, is refused or changes nothing |
| FileContracts.DerivedChainRestores | src/main.py:339-369 | Any requests, each derived just before its step, are undone by their restores in reverse order |
| FileContracts.DerivedStepIsInvertible | src/main.py:339-369 | A derived step meets the hypothesis of the restoration theorem |
| FileContracts.FileSagaWithoutHelp | src/orchestrator/sandbox.py:157-268 | Sagas of derived file requests in the program's own sandbox, where refusals raise and nobody resolves interrupted calls: the tree is put back after every rollback and refusal, and after a crash under a live status exactly when no call was under way; otherwise recovery leaves it as it is |
| FileContracts.FileSagaWithResolver | src/orchestrator/coordinator.py:84-141 | With a resolver that tells the truth in any form the tree is put back wherever the process dies |
| FileContracts.StaleRequestIsQuarantined | src/orchestrator/sandbox.py:197-206 | With nothing else going wrong, a derived request commits if and only if the file at its path is the one it was derived from; otherwise it ends AMBIGUOUS and COMPENSATION_FAILED though nothing was changed, the earlier requests being undone |

## Left out

- Postgres and Redis branches of the state store, pools and schema: foreign services; the memory branches are the reference.
- Crashes between checkpoints and store writes that fail: the code promises nothing there.
- The legacy compensation list (`append_compensation`): a saga without journal records is only modelled as one with nothing to undo; coordinators without a store and eviction of old sagas are not modelled.
- Callbacks, metrics, spans, `record_step` history, timestamps, results of calls, and the tenant label of dead letters: no branch reads them.
- Step statuses and errors: only the changes that a later read of the step can see (COMMITTED in the completed list, the status stored with pending steps) are modelled; error texts are shortened to constants.
- The verification gate and the exception it may raise are one answer of the environment, and the sandbox's preflight another; what they decide is not modelled.
- `steps.index(step)` is taken as the position of the loop: a list holding two equal steps would pause at the first of them.
- Concurrency is modelled for the journal and the external calls (`Interleaving`); two coordinators compensating the same effect at once are outside the restoration theorems.
- CrashRecovery.CrashAnywhereThenRestored: for one execution of a fresh saga; later calls are covered by `CrashRecovery.CrashInAnyCall`, and calls that raise although they took effect by `Quarantine`.
- Quarantine.ExecutionNeverFalselyClaims: for sagas all of whose records are committed and remembered as completed; for any other saga the report of a call is true exactly as `Reports.ReportIsTrueIff` says.
- Approval.LifeNeverFalselyClaims: for one call; several calls on one saga are the subject of `Processes.FalseReportNeedsQuarantine`.
- Workers.EffectsAtMostOnce: for sandboxes without `execute_idempotent`, which may run an action again on a receiver that ignores repetitions.
- FileContracts.FileSagaWithoutHelp: for handlers that come back; a worker that times out raises with its effect unknown and is covered by `Quarantine.ExecutionNeverFalselyClaims`.
- FileContracts.FileSagaWithResolver: about a sandbox that would offer the resolvers the program's own does not.
- Claims.OwnKeysAreNeverStale: a sufficient condition on the journal a run leaves; the exact one, on the input of each call, is that of `Claims.CallKeepsClaimsIff`.
- Claims.CommitKeepsClaimsIff: about one commit of the store; the condition on a call is that of `Claims.CallKeepsClaimsIff`.
- ContractRepair.RepairSuffices: for conditions without negation, constants and empty disjunctions, where the listed comparisons say nothing.
- ContractComposition.ProvedContractsCompose: equality is the one of the language, under which an integer equals the real of the same value.
- ContractMeaning.RepairsSuffice: for such conditions too, with a reference on the left of every comparison; for others the program reports no constraint.
- Letters outside ASCII: the case of resolver answers and the blanks around an implementation identity are those of ASCII; an answer that is neither text nor a boolean is taken to mean nothing.
- Floating point: contract values and distances are integers and reals; overflow, NaN and rounding are not modelled, nor are the distance kernels.
- Hashes and JSON of certificates; SHA-256 in file contracts is an opaque function, injective where a theorem says so.
- The order of the keys in the mapping that `_cluster` returns.
- Directories, permissions, symbolic links and text encodings of files: a tree is a map from resolved paths to contents, and path containment is a parameter.
- Typed policies, capability patterns, worker processes, WASI, the REST service, embeddings, decay and the remaining consolidation cycle.
