/** The domain models: payloads, steps and the in-memory transaction record. */
module Sagas {
  import opened Prelude

  /** A JSON-like value, as it appears in tool arguments and in persisted metadata. */
  datatype Value =
    | Null
    | Flag(flag: bool)
    | Text(text: string)
    | Number(number: int)
    | Object(fields: map<string, Value>)

  /** `bool(value)` */
  predicate Truthy(value: Value) {
    match value
    case Null => false
    case Flag(b) => b
    case Text(t) => t != ""
    case Number(n) => n != 0
    case Object(fields) => fields != map[]
  }

  datatype ActionPayload = ActionPayload(toolName: string, arguments: map<string, Value>)

  datatype SagaStatus =
    | Pending | Running | AwaitingApproval | Committed
    | Compensating | RolledBack | Failed | CompensationFailed

  /** The statuses `list_incomplete` filters out. */
  predicate Terminal(status: SagaStatus) {
    status in {SagaStatus.Committed, SagaStatus.RolledBack, SagaStatus.CompensationFailed, SagaStatus.Failed}
  }

  // A step's status is a plain string in the program, and no branch reads it back.
  const PENDING := "PENDING"
  const AWAITING_APPROVAL := "AWAITING_APPROVAL"
  const COMMITTED := "COMMITTED"

  datatype SagaStep = SagaStep(
    stepId: string,
    stepName: string,
    action: ActionPayload,
    compensation: ActionPayload,
    invariants: string,
    status: string,
    error: string,
    idempotencyKey: Option<string>,
    requiresApproval: bool,
    approved: bool)

  datatype SagaTransaction = SagaTransaction(
    tenantId: string,
    goal: string,
    status: SagaStatus,
    startTime: real,
    completedSteps: seq<SagaStep>,
    pendingSteps: seq<SagaStep>)

  /** Python truthiness of an optional key: absent and empty keys do not deduplicate. */
  predicate Keyed(key: Option<string>) {
    key.Some? && key.value != ""
  }
}
