/** The static checker of contracts, and its soundness: what it accepts evaluates without error. */
module ContractTyping {
  import opened Prelude
  import opened ContractDsl

  type Types = map<string, ValueType>

  /** `_matches_type`: a real variable also takes integers. */
  predicate Matches(v: Scalar, t: ValueType) {
    match t
    case BooleanType => v.BoolValue?
    case IntegerType => v.IntValue?
    case RealType => v.IntValue? || v.RealValue?
    case StringType => v.StringValue?
  }

  /** The specs by name; of two with the same name the later one counts. */
  function TypesOf(specs: seq<VariableSpec>): Types {
    if specs == [] then map[]
    else
      var last := specs[|specs| - 1];
      TypesOf(specs[..|specs| - 1])[last.name := last.valueType]
  }

  lemma {:induction false} TypesOfDistinct(specs: seq<VariableSpec>)
    requires DistinctNames(specs)
    ensures forall i | 0 <= i < |specs| ::
      specs[i].name in TypesOf(specs) && TypesOf(specs)[specs[i].name] == specs[i].valueType
    ensures forall x | x in TypesOf(specs) :: exists i :: 0 <= i < |specs| && specs[i].name == x
  {
    if specs != [] {
      var n := |specs| - 1;
      TypesOfDistinct(specs[..n]);
      assert forall i | 0 <= i < n :: specs[..n][i] == specs[i];
      forall x | x in TypesOf(specs)
        ensures exists i :: 0 <= i < |specs| && specs[i].name == x
      {
        if x != specs[n].name {
          var i :| 0 <= i < n && specs[..n][i].name == x;
          assert specs[i].name == x;
        }
      }
    }
  }

  function Known(source: RefSource, state: Types, inputs: Types): Types {
    if source == InputSource then inputs else state
  }

  /** `_validate_refs` on expressions. */
  predicate RefsKnown(e: Expression, state: Types, inputs: Types) {
    match e
    case Literal(_) => true
    case Ref(name, source) => name in Known(source, state, inputs)
    case Binary(_, left, right) => RefsKnown(left, state, inputs) && RefsKnown(right, state, inputs)
  }

  /** `_validate_refs` on conditions. */
  predicate ConditionRefsKnown(c: Condition, state: Types, inputs: Types) {
    match c
    case BoolConstant(_) => true
    case Comparison(_, left, right) => RefsKnown(left, state, inputs) && RefsKnown(right, state, inputs)
    case AllOf(items) => forall i | 0 <= i < |items| :: ConditionRefsKnown(items[i], state, inputs)
    case AnyOf(items) => forall i | 0 <= i < |items| :: ConditionRefsKnown(items[i], state, inputs)
    case Not(item) => ConditionRefsKnown(item, state, inputs)
  }

  function LiteralType(v: Scalar): ValueType {
    match v
    case BoolValue(_) => BooleanType
    case IntValue(_) => IntegerType
    case RealValue(_) => RealType
    case StringValue(_) => StringType
  }

  predicate IsNumeric(t: ValueType) {
    t == IntegerType || t == RealType
  }

  /** `_infer_expression_type`; None is the error for arithmetic on non-numbers. */
  function Infer(e: Expression, state: Types, inputs: Types): Option<ValueType>
    requires RefsKnown(e, state, inputs)
  {
    match e
    case Literal(value) => Some(LiteralType(value))
    case Ref(name, source) => Some(Known(source, state, inputs)[name])
    case Binary(_, left, right) =>
      var l, r := Infer(left, state, inputs), Infer(right, state, inputs);
      if l.None? || r.None? || !IsNumeric(l.value) || !IsNumeric(r.value) then None
      else Some(if l.value == RealType || r.value == RealType then RealType else IntegerType)
  }

  predicate Compatible(left: ValueType, right: ValueType) {
    left == right || (IsNumeric(left) && IsNumeric(right))
  }

  predicate AssignableTo(value: ValueType, target: ValueType) {
    value == target || (value == IntegerType && target == RealType)
  }

  /** `_validate_condition_types`. */
  predicate WellTyped(c: Condition, state: Types, inputs: Types)
    requires ConditionRefsKnown(c, state, inputs)
  {
    match c
    case BoolConstant(_) => true
    case Comparison(_, left, right) =>
      var l, r := Infer(left, state, inputs), Infer(right, state, inputs);
      l.Some? && r.Some? && Compatible(l.value, r.value)
    case AllOf(items) => forall i | 0 <= i < |items| :: WellTyped(items[i], state, inputs)
    case AnyOf(items) => forall i | 0 <= i < |items| :: WellTyped(items[i], state, inputs)
    case Not(item) => WellTyped(item, state, inputs)
  }

  predicate ConditionValid(c: Condition, state: Types, inputs: Types) {
    ConditionRefsKnown(c, state, inputs) && WellTyped(c, state, inputs)
  }

  predicate DistinctNames(specs: seq<VariableSpec>) {
    forall i, j | 0 <= i < j < |specs| :: specs[i].name != specs[j].name
  }

  predicate TargetsValid(t: Transition, state: Types) {
    && (forall i, j | 0 <= i < j < |t| :: t[i].target != t[j].target)
    && (forall i | 0 <= i < |t| :: t[i].target in state)
  }

  predicate AssignmentsValid(t: Transition, state: Types, inputs: Types)
    requires TargetsValid(t, state)
  {
    forall i | 0 <= i < |t| ::
      && RefsKnown(t[i].value, state, inputs)
      && var found := Infer(t[i].value, state, inputs);
         found.Some? && AssignableTo(found.value, state[t[i].target])
  }

  /** White space among the ASCII characters: tabulators and line ends, separators, the blank. */
  predicate Space(c: char) {
    9 <= c as int <= 13 || 28 <= c as int <= 32
  }

  /** The implementation identity is empty once stripped. */
  predicate Blank(s: string) {
    forall i | 0 <= i < |s| :: Space(s[i])
  }

  /** `_validate_contract`: None when the contract is accepted, or what it raises. */
  function Validate(c: Contract): Option<Fault> {
    var state, inputs := TypesOf(c.stateVariables), TypesOf(c.inputVariables);
    if !DistinctNames(c.stateVariables) || !DistinctNames(c.inputVariables) then Some(Invalid)
    else if state.Keys * inputs.Keys != {} then Some(Invalid)
    else if c.stateVariables == [] then Some(Invalid)
    else if Blank(c.implementationIdentity) then Some(Invalid)
    else if c.irreversibleEffects != [] then Some(Unsupported)
    else if !TargetsValid(c.forward, state) || !TargetsValid(c.compensation, state) then Some(Invalid)
    else if !ConditionValid(c.precondition, state, inputs) || !ConditionValid(c.postcondition, state, inputs)
         || !ConditionValid(c.restoration, state, inputs) then Some(Invalid)
    else if !AssignmentsValid(c.forward, state, inputs) || !AssignmentsValid(c.compensation, state, inputs) then
      Some(Invalid)
    else None
  }

  // ── Soundness ─────────────────────────────────────────────────────

  /** Every declared variable has a value of its type. */
  ghost predicate Typed(r: Record, types: Types) {
    forall x | x in types :: x in r && Matches(r[x], types[x])
  }

  ghost predicate ScopeTyped(scope: Scope, state: Types, inputs: Types) {
    Typed(scope.state, state) && Typed(scope.original, state) && Typed(scope.inputs, inputs)
  }

  /** An expression that was given a type evaluates to a value of that type. */
  lemma {:induction false} ExpressionSound(e: Expression, scope: Scope, state: Types, inputs: Types)
    requires RefsKnown(e, state, inputs) && Infer(e, state, inputs).Some? && ScopeTyped(scope, state, inputs)
    ensures Evaluate(e, scope).Success?
    ensures Matches(Evaluate(e, scope).value, Infer(e, state, inputs).value)
  {
    match e
    case Literal(_) =>
    case Ref(name, source) =>
    case Binary(_, left, right) =>
      ExpressionSound(left, scope, state, inputs);
      ExpressionSound(right, scope, state, inputs);
  }

  /** A valid condition evaluates without error. */
  lemma {:induction false} ConditionSound(c: Condition, scope: Scope, state: Types, inputs: Types)
    requires ConditionValid(c, state, inputs) && ScopeTyped(scope, state, inputs)
    ensures Check(c, scope).Success?
    decreases c, 1
  {
    match c
    case BoolConstant(_) =>
    case Comparison(_, left, right) =>
      ExpressionSound(left, scope, state, inputs);
      ExpressionSound(right, scope, state, inputs);
    case AllOf(items) => ConditionsSound(items, scope, state, inputs);
    case AnyOf(items) => ConditionsSound(items, scope, state, inputs);
    case Not(item) => ConditionSound(item, scope, state, inputs);
  }

  lemma {:induction false} ConditionsSound(items: seq<Condition>, scope: Scope, state: Types, inputs: Types)
    requires forall i | 0 <= i < |items| :: ConditionValid(items[i], state, inputs)
    requires ScopeTyped(scope, state, inputs)
    ensures CheckAll(items, scope).Success? && CheckAny(items, scope).Success?
    ensures forall i | 0 <= i < |items| :: Check(items[i], scope).Success?
    decreases items, 0
  {
    if items != [] {
      ConditionSound(items[0], scope, state, inputs);
      ConditionsSound(items[1..], scope, state, inputs);
      assert forall i | 1 <= i < |items| :: items[i] == items[1..][i - 1];
    }
  }

  lemma UpdatesFold(t: Transition, scope: Scope)
    ensures t == [] ==> Updates(t, scope) == Success(map[])
    ensures t != [] && Evaluate(t[0].value, scope).Success? && Updates(t[1..], scope).Success? ==>
      Updates(t, scope) == Success(map[t[0].target := Evaluate(t[0].value, scope).value] + Updates(t[1..], scope).value)
  {
  }

  /** The assigned variables and what they get, in terms of the single assignments. */
  lemma {:induction false} UpdatesAre(t: Transition, scope: Scope)
    requires forall i, j | 0 <= i < j < |t| :: t[i].target != t[j].target
    requires forall i | 0 <= i < |t| :: Evaluate(t[i].value, scope).Success?
    ensures Updates(t, scope).Success?
    ensures forall x :: x in Updates(t, scope).value <==> exists i :: 0 <= i < |t| && t[i].target == x
    ensures forall i | 0 <= i < |t| ::
      t[i].target in Updates(t, scope).value
      && Updates(t, scope).value[t[i].target] == Evaluate(t[i].value, scope).value
  {
    hide Evaluate, Updates;
    UpdatesFold(t, scope);
    if t != [] {
      UpdatesAre(t[1..], scope);
      var rest := Updates(t[1..], scope).value;
      assert forall i | 1 <= i < |t| :: t[i] == t[1..][i - 1];
      forall x
        ensures x in Updates(t, scope).value <==> exists i :: 0 <= i < |t| && t[i].target == x
      {
        if x in rest {
          var i :| 0 <= i < |t[1..]| && t[1..][i].target == x;
          assert t[i + 1].target == x;
        } else if x == t[0].target {
          assert t[0].target == x;
        }
      }
    }
  }

  /** A valid transition goes through and leads to a state of the declared types. */
  lemma TransitionSound(t: Transition, scope: Scope, state: Types, inputs: Types)
    requires TargetsValid(t, state) && AssignmentsValid(t, state, inputs) && ScopeTyped(scope, state, inputs)
    ensures Step(t, scope).Success?
    ensures Typed(Step(t, scope).value, state)
  {
    forall i | 0 <= i < |t|
      ensures Evaluate(t[i].value, scope).Success?
      ensures Matches(Evaluate(t[i].value, scope).value, state[t[i].target])
    {
      ExpressionSound(t[i].value, scope, state, inputs);
    }
    UpdatesAre(t, scope);
  }
}
