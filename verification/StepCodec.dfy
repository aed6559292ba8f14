/** How a paused step is written into saga metadata and read back after a restart. */
module StepCodec {
  import opened Prelude
  import opened Sagas
  import opened Journal

  function SerializePayload(p: ActionPayload): Value {
    Object(map["tool_name" := Text(p.toolName), "arguments" := Object(p.arguments)])
  }

  function OptionalText(o: Option<string>): Value {
    match o
    case None => Null
    case Some(text) => Text(text)
  }

  function SerializeStep(step: SagaStep): Value {
    Object(map[
      "step_id" := Text(step.stepId),
      "step_name" := Text(step.stepName),
      "action" := SerializePayload(step.action),
      "compensation" := SerializePayload(step.compensation),
      "invariants" := Text(step.invariants),
      "status" := Text(step.status),
      "error" := Text(step.error),
      "idempotency_key" := OptionalText(step.idempotencyKey),
      "requires_approval" := Flag(step.requiresApproval),
      "approved" := Flag(step.approved)])
  }

  function SerializeSteps(steps: seq<SagaStep>): seq<Value> {
    seq(|steps|, i requires 0 <= i < |steps| => SerializeStep(steps[i]))
  }

  // Readers: None stands for the exception Python raises on a missing or ill-typed item.

  function TextAt(fields: map<string, Value>, name: string): Option<string> {
    if name in fields && fields[name].Text? then Some(fields[name].text) else None
  }

  /** `value.get(name, default)` for a text item. */
  function TextOr(fields: map<string, Value>, name: string, default: string): Option<string> {
    if name in fields then TextAt(fields, name) else Some(default)
  }

  /** `bool(value.get(name))`. */
  predicate TruthyAt(fields: map<string, Value>, name: string) {
    name in fields && Truthy(fields[name])
  }

  function DeserializePayload(fields: map<string, Value>, name: string): Option<ActionPayload> {
    if name in fields && fields[name].Object? then
      var inner := fields[name].fields;
      var tool := TextAt(inner, "tool_name");
      var arguments := if "arguments" in inner then inner["arguments"] else Object(map[]);
      if tool.Some? && arguments.Object? then Some(ActionPayload(tool.value, arguments.fields)) else None
    else
      None
  }

  function DeserializeStep(value: Value): Option<SagaStep> {
    if !value.Object? then None else
    var f := value.fields;
    var id, name := TextAt(f, "step_id"), TextAt(f, "step_name");
    var action, compensation := DeserializePayload(f, "action"), DeserializePayload(f, "compensation");
    var invariants, status, error := TextOr(f, "invariants", ""), TextOr(f, "status", PENDING), TextOr(f, "error", "");
    if id.Some? && name.Some? && action.Some? && compensation.Some? && invariants.Some? && status.Some? && error.Some?
    then
      Some(SagaStep(id.value, name.value, action.value, compensation.value, invariants.value, status.value,
                    error.value, TextAt(f, "idempotency_key"), TruthyAt(f, "requires_approval"), TruthyAt(f, "approved")))
    else
      None
  }

  function DeserializeSteps(values: seq<Value>): Option<seq<SagaStep>> {
    if values == [] then Some([]) else
    var head, tail := DeserializeStep(values[0]), DeserializeSteps(values[1..]);
    if head.Some? && tail.Some? then Some([head.value] + tail.value) else None
  }

  /** `_step_from_effect`. */
  function StepFromEffect(e: Entry): SagaStep {
    SagaStep(e.stepId, e.stepName, e.action, e.compensation, "", COMMITTED, "", e.idempotencyKey, false, false)
  }

  lemma PayloadRoundTrip(fields: map<string, Value>, name: string, p: ActionPayload)
    requires name in fields && fields[name] == SerializePayload(p)
    ensures DeserializePayload(fields, name) == Some(p)
  {
    assert "tool_name" != "arguments";
  }

  /** Every item of a serialised step is found under its own name. */
  lemma SerializedFields(step: SagaStep)
    ensures SerializeStep(step).Object?
    ensures var f := SerializeStep(step).fields;
      && TextAt(f, "step_id") == Some(step.stepId)
      && TextAt(f, "step_name") == Some(step.stepName)
      && "action" in f && f["action"] == SerializePayload(step.action)
      && "compensation" in f && f["compensation"] == SerializePayload(step.compensation)
      && TextOr(f, "invariants", "") == Some(step.invariants)
      && TextOr(f, "status", PENDING) == Some(step.status)
      && TextOr(f, "error", "") == Some(step.error)
      && TextAt(f, "idempotency_key") == step.idempotencyKey
      && TruthyAt(f, "requires_approval") == step.requiresApproval
      && TruthyAt(f, "approved") == step.approved
  {
    assert "action"[0] != "status"[0];
  }

  lemma StepRoundTrip(step: SagaStep)
    ensures DeserializeStep(SerializeStep(step)) == Some(step)
  {
    SerializedFields(step);
    var f := SerializeStep(step).fields;
    PayloadRoundTrip(f, "action", step.action);
    PayloadRoundTrip(f, "compensation", step.compensation);
  }

  /** A restart reads back exactly the steps the pause wrote. */
  lemma {:induction false} StepsRoundTrip(steps: seq<SagaStep>)
    ensures DeserializeSteps(SerializeSteps(steps)) == Some(steps)
  {
    hide SerializeStep, DeserializeStep;
    if steps != [] {
      StepRoundTrip(steps[0]);
      StepsRoundTrip(steps[1..]);
      assert SerializeSteps(steps)[1..] == SerializeSteps(steps[1..]);
      assert steps == [steps[0]] + steps[1..];
    }
  }

  // ── Metadata written by others ────────────────────────────────────

  /** The items a step may leave out, and what they stand for then. */
  function Default(name: string): Option<Value> {
    if name == "invariants" || name == "error" then Some(Text(""))
    else if name == "status" then Some(Text("PENDING"))
    else if name == "idempotency_key" then Some(Null)
    else if name == "requires_approval" || name == "approved" then Some(Flag(false))
    else None
  }

  /** An item left out is read as its default. */
  lemma AbsentReadsAsDefault(f: map<string, Value>, name: string)
    requires name !in f && Default(name).Some?
    ensures DeserializeStep(Object(f)) == DeserializeStep(Object(f[name := Default(name).value]))
  {
    hide DeserializePayload;
    var g := f[name := Default(name).value];
    assert "action" != name && "compensation" != name && "step_id" != name && "step_name" != name;
    PayloadElsewhere(f, g, "action");
    PayloadElsewhere(f, g, "compensation");
  }

  lemma PayloadElsewhere(f: map<string, Value>, g: map<string, Value>, name: string)
    requires name in f <==> name in g
    requires name in f ==> f[name] == g[name]
    ensures DeserializePayload(f, name) == DeserializePayload(g, name)
  {
  }

  /** The items a step cannot be read without. */
  lemma RequiredItems(value: Value)
    ensures DeserializeStep(value).Some? ==>
      && value.Object?
      && forall name | name in ["step_id", "step_name", "action", "compensation"] :: name in value.fields
  {
  }
}
