/**
 What contracts mean, told without the evaluator: expressions as numbers, conditions as
 propositions, transitions as relations. The evaluator agrees with it on what the checker accepts,
 and the checker accepts exactly the contracts that make sense.
 */
module ContractMeaning {
  import opened Prelude
  import opened ContractDsl
  import opened ContractTyping
  import opened ContractRepair
  import opened ContractCases
  import opened ContractVerifier

  // ── Expressions ───────────────────────────────────────────────────

  /** What a reference finds, of any kind where there is nothing to find. */
  ghost function Lookup(name: string, source: RefSource, scope: Scope): Scalar {
    if source == StateSource && name in scope.state then scope.state[name]
    else if source == OriginalSource && name in scope.original then scope.original[name]
    else if source == InputSource && name in scope.inputs then scope.inputs[name]
    else BoolValue(false)
  }

  ghost function AmountOf(v: Scalar): real {
    if v.IntValue? then v.i as real
    else if v.RealValue? then v.r
    else if v == BoolValue(true) then 1.0
    else 0.0
  }

  /** The number an expression stands for. */
  ghost function Amount(e: Expression, scope: Scope): real {
    match e
    case Literal(v) => AmountOf(v)
    case Ref(name, source) => AmountOf(Lookup(name, source, scope))
    case Binary(op, left, right) =>
      var x, y := Amount(left, scope), Amount(right, scope);
      if op == Add then x + y else if op == Subtract then x - y else x * y
  }

  /** No part of the expression is a real number. */
  ghost predicate Whole(e: Expression, scope: Scope) {
    match e
    case Literal(v) => v.IntValue?
    case Ref(name, source) => Lookup(name, source, scope).IntValue?
    case Binary(_, left, right) => Whole(left, scope) && Whole(right, scope)
  }

  /** The value of an expression; a sum of integers is an integer, any other a real. */
  ghost function Value(e: Expression, scope: Scope): Scalar {
    match e
    case Literal(v) => v
    case Ref(name, source) => Lookup(name, source, scope)
    case Binary(_, _, _) => if Whole(e, scope) then IntValue(Amount(e, scope).Floor) else RealValue(Amount(e, scope))
  }

  lemma IntegersStay(x: int, y: int)
    ensures (x as real + y as real) == (x + y) as real
    ensures (x as real - y as real) == (x - y) as real
    ensures (x as real * y as real) == (x * y) as real
  {
  }

  lemma ArithmeticIs(op: ArithmeticOperator, v: Scalar, w: Scalar)
    requires (v.IntValue? || v.RealValue?) && (w.IntValue? || w.RealValue?)
    ensures var r := Arithmetic(op, v, w);
      && r.Success? && (r.value.IntValue? || r.value.RealValue?)
      && (r.value.IntValue? <==> v.IntValue? && w.IntValue?)
      && AmountOf(r.value) ==
           if op == Add then AmountOf(v) + AmountOf(w)
           else if op == Subtract then AmountOf(v) - AmountOf(w) else AmountOf(v) * AmountOf(w)
  {
    if v.IntValue? && w.IntValue? {
      IntegersStay(v.i, w.i);
    }
  }

  /** A typed expression evaluates to its value, which stands for its number. */
  lemma {:induction false} MeaningOfExpression(e: Expression, scope: Scope, state: Types, inputs: Types)
    requires RefsKnown(e, state, inputs) && Infer(e, state, inputs).Some? && ScopeTyped(scope, state, inputs)
    ensures Evaluate(e, scope) == Success(Value(e, scope))
    ensures AmountOf(Value(e, scope)) == Amount(e, scope)
    ensures Value(e, scope).IntValue? <==> Whole(e, scope)
  {
    hide Arithmetic;
    match e
    case Literal(_) =>
    case Ref(name, source) =>
    case Binary(op, left, right) =>
      MeaningOfExpression(left, scope, state, inputs);
      MeaningOfExpression(right, scope, state, inputs);
      ExpressionSound(left, scope, state, inputs);
      ExpressionSound(right, scope, state, inputs);
      ArithmeticIs(op, Value(left, scope), Value(right, scope));
      var r := Arithmetic(op, Value(left, scope), Value(right, scope)).value;
      assert AmountOf(r) == Amount(e, scope) && (r.IntValue? <==> Whole(e, scope));
      assert r.IntValue? ==> (r.i as real).Floor == r.i;
  }

  // ── Conditions ────────────────────────────────────────────────────

  /** The order of a dictionary: at the first place where they differ a has the smaller character, or has ended. */
  ghost predicate Precedes(a: string, b: string) {
    exists k: nat :: k <= |a| && k < |b| && a[..k] == b[..k] && (k == |a| || a[k] < b[k])
  }

  lemma SamePrefix(a: string, b: string, k: nat)
    requires k < |a| && k < |b| && a[0] == b[0]
    ensures a[..k + 1] == b[..k + 1] <==> a[1..][..k] == b[1..][..k]
  {
    assert a[..k + 1] == [a[0]] + a[1..][..k] && b[..k + 1] == [b[0]] + b[1..][..k];
    assert a[1..][..k] == a[..k + 1][1..] && b[1..][..k] == b[..k + 1][1..];
  }

  lemma {:induction false} StringLessIs(a: string, b: string)
    ensures StringLess(a, b) <==> Precedes(a, b)
  {
    if a != [] && b != [] && a[0] == b[0] {
      StringLessIs(a[1..], b[1..]);
      if Precedes(a[1..], b[1..]) {
        var k: nat :| k <= |a[1..]| && k < |b[1..]| && a[1..][..k] == b[1..][..k] && (k == |a[1..]| || a[1..][k] < b[1..][k]);
        SamePrefix(a, b, k);
      }
      if Precedes(a, b) {
        var k: nat :| k <= |a| && k < |b| && a[..k] == b[..k] && (k == |a| || a[k] < b[k]);
        assert k > 0;
        var j: nat := k - 1;
        SamePrefix(a, b, j);
      }
    } else if a == [] || b == [] || a[0] < b[0] {
      assert a[..0] == b[..0];
    } else {
      forall k: nat | 0 < k <= |a| && k < |b|
        ensures a[..k] != b[..k]
      {
        assert a[..k][0] == a[0] && b[..k][0] == b[0];
      }
    }
  }

  lemma {:induction false} StringsAreOrdered(a: string, b: string)
    ensures StringLess(b, a) <==> a != b && !StringLess(a, b)
  {
    if a != [] && b != [] {
      StringsAreOrdered(a[1..], b[1..]);
      assert a == b <==> a[0] == b[0] && a[1..] == b[1..] by {
        assert a == [a[0]] + a[1..] && b == [b[0]] + b[1..];
      }
    }
  }

  ghost predicate Ordered(op: ComparisonOperator, equal: bool, less: bool) {
    match op
    case Eq => equal
    case Ne => !equal
    case Lt => less
    case Le => less || equal
    case Gt => !(less || equal)
    case Ge => !less
  }

  ghost predicate Related(op: ComparisonOperator, v: Scalar, w: Scalar) {
    if v.StringValue? && w.StringValue? then Ordered(op, v.s == w.s, Precedes(v.s, w.s))
    else Ordered(op, AmountOf(v) == AmountOf(w), AmountOf(v) < AmountOf(w))
  }

  /** What a condition says. */
  ghost predicate True(c: Condition, scope: Scope) {
    match c
    case BoolConstant(b) => b
    case Comparison(op, left, right) => Related(op, Value(left, scope), Value(right, scope))
    case AllOf(items) => forall i | 0 <= i < |items| :: True(items[i], scope)
    case AnyOf(items) => exists i | 0 <= i < |items| :: True(items[i], scope)
    case Not(item) => !True(item, scope)
  }

  lemma CompareIs(op: ComparisonOperator, v: Scalar, w: Scalar)
    requires v.StringValue? <==> w.StringValue?
    ensures Compare(op, v, w) == Success(Related(op, v, w))
  {
    if v.StringValue? {
      StringLessIs(v.s, w.s);
      StringsAreOrdered(v.s, w.s);
    }
  }

  /** A valid condition evaluates to what it says. */
  lemma {:induction false} MeaningOfCondition(c: Condition, scope: Scope, state: Types, inputs: Types)
    requires ConditionValid(c, state, inputs) && ScopeTyped(scope, state, inputs)
    ensures Check(c, scope) == Success(True(c, scope))
    decreases c, 1
  {
    hide Compare, Related, Evaluate, Value;
    match c
    case BoolConstant(_) =>
    case Comparison(op, left, right) =>
      MeaningOfExpression(left, scope, state, inputs);
      MeaningOfExpression(right, scope, state, inputs);
      ExpressionSound(left, scope, state, inputs);
      ExpressionSound(right, scope, state, inputs);
      CompareIs(op, Value(left, scope), Value(right, scope));
    case AllOf(items) => MeaningOfConditions(items, scope, state, inputs);
    case AnyOf(items) => MeaningOfConditions(items, scope, state, inputs);
    case Not(item) => MeaningOfCondition(item, scope, state, inputs);
  }

  lemma {:induction false} MeaningOfConditions(items: seq<Condition>, scope: Scope, state: Types, inputs: Types)
    requires forall i | 0 <= i < |items| :: ConditionValid(items[i], state, inputs)
    requires ScopeTyped(scope, state, inputs)
    ensures CheckAll(items, scope) == Success(forall i | 0 <= i < |items| :: True(items[i], scope))
    ensures CheckAny(items, scope) == Success(exists i | 0 <= i < |items| :: True(items[i], scope))
    decreases items, 0
  {
    hide True, Check, ConditionValid, ScopeTyped;
    if items != [] {
      MeaningOfCondition(items[0], scope, state, inputs);
      MeaningOfConditions(items[1..], scope, state, inputs);
      assert forall i | 1 <= i < |items| :: items[i] == items[1..][i - 1];
      assert forall i | 0 <= i < |items[1..]| :: items[1..][i] == items[i + 1];
    }
  }

  // ── Transitions ───────────────────────────────────────────────────

  ghost predicate IsTarget(t: Transition, x: string) {
    exists i :: 0 <= i < |t| && t[i].target == x
  }

  /** Every assigned variable gets its value in the state before, every other keeps its own. */
  ghost predicate Moves(t: Transition, scope: Scope, after: Record) {
    && (forall x :: x in after <==> x in scope.state || IsTarget(t, x))
    && (forall i | 0 <= i < |t| :: t[i].target in after && after[t[i].target] == Value(t[i].value, scope))
    && (forall x | x in scope.state && !IsTarget(t, x) :: x in after && after[x] == scope.state[x])
  }

  lemma MovesIsUnique(t: Transition, scope: Scope, a: Record, b: Record)
    requires Moves(t, scope, a) && Moves(t, scope, b)
    ensures a == b
  {
    hide Value;
    forall x | x in a
      ensures x in b && a[x] == b[x]
    {
      if IsTarget(t, x) {
        var i :| 0 <= i < |t| && t[i].target == x;
      }
    }
    assert a.Keys == b.Keys;
  }

  /** A valid transition leads to one state, the one that it means. */
  lemma MeaningOfTransition(t: Transition, scope: Scope, after: Record, state: Types, inputs: Types)
    requires TargetsValid(t, state) && AssignmentsValid(t, state, inputs) && ScopeTyped(scope, state, inputs)
    ensures Step(t, scope) == Success(after) <==> Moves(t, scope, after)
  {
    forall i | 0 <= i < |t|
      ensures Evaluate(t[i].value, scope) == Success(Value(t[i].value, scope))
    {
      MeaningOfExpression(t[i].value, scope, state, inputs);
    }
    hide Evaluate, Value, Updates;
    UpdatesAre(t, scope);
    var found := scope.state + Updates(t, scope).value;
    assert Moves(t, scope, found);
    if Moves(t, scope, after) {
      MovesIsUnique(t, scope, after, found);
    }
  }

  lemma MeaningOfStep(t: Transition, scope: Scope, state: Types, inputs: Types) returns (after: Record)
    requires TargetsValid(t, state) && AssignmentsValid(t, state, inputs) && ScopeTyped(scope, state, inputs)
    ensures Step(t, scope) == Success(after) && Moves(t, scope, after) && Typed(after, state)
  {
    hide Step, Moves, AssignmentsValid, TargetsValid;
    TransitionSound(t, scope, state, inputs);
    after := Step(t, scope).value;
    MeaningOfTransition(t, scope, after, state, inputs);
  }

  // ── Cases ─────────────────────────────────────────────────────────

  ghost predicate Starts(c: Contract, x: Case) {
    True(c.precondition, Scope(x.state, x.state, x.inputs))
  }

  ghost predicate Ends(c: Contract, x: Case, after: Record, back: Record) {
    && Moves(c.forward, Scope(x.state, x.state, x.inputs), after)
    && Moves(c.compensation, Scope(after, x.state, x.inputs), back)
  }

  /** The forward step leads to the postcondition, and the compensation from there to the restoration. */
  ghost predicate Delivers(c: Contract, x: Case) {
    exists after, back :: Ends(c, x, after, back)
      && True(c.postcondition, Scope(after, x.state, x.inputs)) && True(c.restoration, Scope(back, x.state, x.inputs))
  }

  lemma DeliversIs(c: Contract, x: Case, after: Record, back: Record)
    requires Moves(c.forward, Scope(x.state, x.state, x.inputs), after)
    requires Moves(c.compensation, Scope(after, x.state, x.inputs), back)
    ensures Delivers(c, x) <==>
      True(c.postcondition, Scope(after, x.state, x.inputs)) && True(c.restoration, Scope(back, x.state, x.inputs))
  {
    hide Moves, True;
    assert Ends(c, x, after, back);
    if Delivers(c, x) {
      var a, b :| Ends(c, x, a, b)
        && True(c.postcondition, Scope(a, x.state, x.inputs)) && True(c.restoration, Scope(b, x.state, x.inputs));
      MovesIsUnique(c.forward, Scope(x.state, x.state, x.inputs), a, after);
      MovesIsUnique(c.compensation, Scope(after, x.state, x.inputs), b, back);
    }
  }

  lemma ValidTransitions(c: Contract)
    requires Validate(c).None?
    ensures var ss, ins := TypesOf(c.stateVariables), TypesOf(c.inputVariables);
      && TargetsValid(c.forward, ss) && AssignmentsValid(c.forward, ss, ins)
      && TargetsValid(c.compensation, ss) && AssignmentsValid(c.compensation, ss, ins)
  {
  }

  /** On a valid contract the verifier judges a case by what the contract means. */
  lemma MeaningOfCase(c: Contract, x: Case)
    requires Validate(c).None? && CaseTyped(c, x)
    ensures Admissible(c, x) <==> Starts(c, x)
    ensures Meets(c, x) <==> Delivers(c, x)
  {
    var ss, ins := TypesOf(c.stateVariables), TypesOf(c.inputVariables);
    hide Validate, TypesOf, Step, Check, True, Moves, ConditionValid, TargetsValid, AssignmentsValid, Typed, Delivers;
    ValidParts(c);
    ValidTransitions(c);
    var scope := Scope(x.state, x.state, x.inputs);
    MeaningOfCondition(c.precondition, scope, ss, ins);
    var after := MeaningOfStep(c.forward, scope, ss, ins);
    var forwardScope := Scope(after, x.state, x.inputs);
    MeaningOfCondition(c.postcondition, forwardScope, ss, ins);
    var back := MeaningOfStep(c.compensation, forwardScope, ss, ins);
    MeaningOfCondition(c.restoration, Scope(back, x.state, x.inputs), ss, ins);
    DeliversIs(c, x, after, back);
  }

  // ── What the checker accepts ──────────────────────────────────────

  /** The value is of just this type: a real one is no integer. */
  ghost predicate OfType(v: Scalar, t: ValueType) {
    && (v.BoolValue? <==> t == BooleanType) && (v.IntValue? <==> t == IntegerType)
    && (v.RealValue? <==> t == RealType) && (v.StringValue? <==> t == StringType)
  }

  /** A value of just its type for every declared variable, and no others. */
  ghost predicate Sample(r: Record, types: Types) {
    r.Keys == types.Keys && forall x | x in types :: OfType(r[x], types[x])
  }

  ghost predicate SampleScope(scope: Scope, state: Types, inputs: Types) {
    Sample(scope.state, state) && Sample(scope.original, state) && Sample(scope.inputs, inputs)
  }

  ghost function SomeValue(t: ValueType): (v: Scalar)
    ensures OfType(v, t)
  {
    match t
    case BooleanType => BoolValue(false)
    case IntegerType => IntValue(0)
    case RealType => RealValue(0.0)
    case StringType => StringValue("")
  }

  ghost function SomeRecord(types: Types): (r: Record)
    ensures Sample(r, types)
  {
    map x | x in types :: SomeValue(types[x])
  }

  /** A type is found for exactly the expressions that can be evaluated, and it is that of the value. */
  lemma {:induction false} TypeIsExact(e: Expression, scope: Scope, state: Types, inputs: Types)
    requires SampleScope(scope, state, inputs)
    ensures Evaluate(e, scope).Success? <==> RefsKnown(e, state, inputs) && Infer(e, state, inputs).Some?
    ensures Evaluate(e, scope).Success? ==> OfType(Evaluate(e, scope).value, Infer(e, state, inputs).value)
  {
    match e
    case Literal(_) =>
    case Ref(_, _) =>
    case Binary(_, left, right) =>
      TypeIsExact(left, scope, state, inputs);
      TypeIsExact(right, scope, state, inputs);
  }

  ghost predicate BothNumbers(v: Scalar, w: Scalar) {
    (v.IntValue? || v.RealValue?) && (w.IntValue? || w.RealValue?)
  }

  /** Both sides have a value, and these can be ordered: two numbers, two booleans or two strings. */
  ghost predicate Comparable(k: Condition, scope: Scope) {
    && k.Comparison?
    && var v, w := Evaluate(k.lhs, scope), Evaluate(k.rhs, scope);
      && v.Success? && w.Success?
      && (BothNumbers(v.value, w.value) || (v.value.BoolValue? && w.value.BoolValue?)
          || (v.value.StringValue? && w.value.StringValue?))
  }

  /** A condition is valid if and only if every comparison in it is between values that can be ordered. */
  lemma {:induction false} ValidConditionIsExact(c: Condition, scope: Scope, state: Types, inputs: Types)
    requires SampleScope(scope, state, inputs)
    ensures ConditionValid(c, state, inputs) <==> forall k | Occurs(k, c) :: Comparable(k, scope)
  {
    hide SampleScope, Comparable;
    match c
    case BoolConstant(_) =>
    case Comparison(_, _, _) =>
      assert Occurs(c, c);
      ComparableIs(c, scope, state, inputs);
    case AllOf(items) => ValidItemsAreExact(items, c, scope, state, inputs);
    case AnyOf(items) => ValidItemsAreExact(items, c, scope, state, inputs);
    case Not(item) =>
      ValidConditionIsExact(item, scope, state, inputs);
      assert forall k :: Occurs(k, c) <==> Occurs(k, item);
  }

  lemma ComparableIs(c: Condition, scope: Scope, state: Types, inputs: Types)
    requires SampleScope(scope, state, inputs) && c.Comparison?
    ensures ConditionValid(c, state, inputs) <==> Comparable(c, scope)
  {
    hide SampleScope, Evaluate;
    TypeIsExact(c.lhs, scope, state, inputs);
    TypeIsExact(c.rhs, scope, state, inputs);
  }

  lemma {:induction false} ValidItemsAreExact(
    items: seq<Condition>, c: Condition, scope: Scope, state: Types, inputs: Types)
    requires SampleScope(scope, state, inputs) && (c == AllOf(items) || c == AnyOf(items))
    ensures ConditionValid(c, state, inputs) <==> forall k | Occurs(k, c) :: Comparable(k, scope)
  {
    hide SampleScope, Comparable;
    forall i | 0 <= i < |items|
      ensures ConditionValid(items[i], state, inputs) <==> forall k | Occurs(k, items[i]) :: Comparable(k, scope)
    {
      ValidConditionIsExact(items[i], scope, state, inputs);
    }
    assert ConditionValid(c, state, inputs) <==> forall i | 0 <= i < |items| :: ConditionValid(items[i], state, inputs);
    assert forall i, k | 0 <= i < |items| && Occurs(k, items[i]) :: Occurs(k, c);
  }

  /** A value of its kind may stand in the slot; an integer may stand for a real. */
  ghost predicate MayReplace(v: Scalar, slot: Scalar) {
    (v.BoolValue? && slot.BoolValue?) || (v.StringValue? && slot.StringValue?)
    || (v.IntValue? && (slot.IntValue? || slot.RealValue?)) || (v.RealValue? && slot.RealValue?)
  }

  /** No variable is assigned twice, and each gets a value that may replace its own. */
  ghost predicate Sensible(t: Transition, scope: Scope) {
    && (forall i, j | 0 <= i < j < |t| :: t[i].target != t[j].target)
    && (forall i | 0 <= i < |t| :: t[i].target in scope.state && Evaluate(t[i].value, scope).Success?
                                   && MayReplace(Evaluate(t[i].value, scope).value, scope.state[t[i].target]))
  }

  lemma ValidTransitionIsExact(t: Transition, scope: Scope, state: Types, inputs: Types)
    requires SampleScope(scope, state, inputs)
    ensures TargetsValid(t, state) && AssignmentsValid(t, state, inputs) <==> Sensible(t, scope)
  {
    hide Evaluate, RefsKnown;
    forall i | 0 <= i < |t|
      ensures Evaluate(t[i].value, scope).Success? <==>
        RefsKnown(t[i].value, state, inputs) && Infer(t[i].value, state, inputs).Some?
      ensures Evaluate(t[i].value, scope).Success? ==>
        OfType(Evaluate(t[i].value, scope).value, Infer(t[i].value, state, inputs).value)
    {
      TypeIsExact(t[i].value, scope, state, inputs);
    }
  }

  /** A value of just its type for every declared variable, and no others. */
  ghost predicate SampleOf(r: Record, specs: seq<VariableSpec>) {
    r.Keys == NameSet(specs) && forall i | 0 <= i < |specs| :: OfType(r[specs[i].name], specs[i].valueType)
  }

  ghost predicate SampleFor(c: Contract, scope: Scope) {
    && SampleOf(scope.state, c.stateVariables) && SampleOf(scope.original, c.stateVariables)
    && SampleOf(scope.inputs, c.inputVariables)
  }

  lemma SamplesAre(r: Record, specs: seq<VariableSpec>)
    requires DistinctNames(specs)
    ensures Sample(r, TypesOf(specs)) <==> SampleOf(r, specs)
  {
    hide TypesOf, OfType;
    TypesOfDistinct(specs);
    NamesAreTypes(specs);
    var types := TypesOf(specs);
    if SampleOf(r, specs) {
      forall x | x in types
        ensures OfType(r[x], types[x])
      {
        var i :| 0 <= i < |specs| && specs[i].name == x;
      }
    }
    assert forall i | 0 <= i < |specs| :: specs[i].name in types && types[specs[i].name] == specs[i].valueType;
  }

  /** Every variable has one name, there is a state, and the tool is identified. */
  ghost predicate Declared(c: Contract) {
    && (forall i, j | 0 <= i < j < |c.stateVariables| :: c.stateVariables[i].name != c.stateVariables[j].name)
    && (forall i, j | 0 <= i < j < |c.inputVariables| :: c.inputVariables[i].name != c.inputVariables[j].name)
    && (forall i, j | 0 <= i < |c.stateVariables| && 0 <= j < |c.inputVariables| ::
          c.stateVariables[i].name != c.inputVariables[j].name)
    && c.stateVariables != []
    && exists i :: 0 <= i < |c.implementationIdentity| && !Space(c.implementationIdentity[i])
  }

  /** Every comparison is between values that can be ordered, and every assignment keeps the type. */
  ghost predicate MakesSense(c: Contract, scope: Scope) {
    && (forall k | Occurs(k, c.precondition) || Occurs(k, c.postcondition) || Occurs(k, c.restoration) ::
          Comparable(k, scope))
    && Sensible(c.forward, scope) && Sensible(c.compensation, scope)
  }

  ghost predicate WellFormed(c: Contract) {
    Declared(c) && c.irreversibleEffects == [] && forall scope | SampleFor(c, scope) :: MakesSense(c, scope)
  }

  lemma PartsAreExact(c: Contract, scope: Scope)
    requires SampleScope(scope, TypesOf(c.stateVariables), TypesOf(c.inputVariables))
    ensures var ss, ins := TypesOf(c.stateVariables), TypesOf(c.inputVariables);
      MakesSense(c, scope) <==>
      && ConditionValid(c.precondition, ss, ins) && ConditionValid(c.postcondition, ss, ins)
      && ConditionValid(c.restoration, ss, ins)
      && TargetsValid(c.forward, ss) && AssignmentsValid(c.forward, ss, ins)
      && TargetsValid(c.compensation, ss) && AssignmentsValid(c.compensation, ss, ins)
  {
    hide SampleScope, Comparable, Sensible, ConditionValid, TargetsValid, AssignmentsValid, Occurs, TypesOf;
    var ss, ins := TypesOf(c.stateVariables), TypesOf(c.inputVariables);
    ValidConditionIsExact(c.precondition, scope, ss, ins);
    ValidConditionIsExact(c.postcondition, scope, ss, ins);
    ValidConditionIsExact(c.restoration, scope, ss, ins);
    ValidTransitionIsExact(c.forward, scope, ss, ins);
    ValidTransitionIsExact(c.compensation, scope, ss, ins);
  }

  lemma DeclaredIs(c: Contract)
    ensures Declared(c) <==>
      && DistinctNames(c.stateVariables) && DistinctNames(c.inputVariables)
      && TypesOf(c.stateVariables).Keys * TypesOf(c.inputVariables).Keys == {}
      && c.stateVariables != [] && !Blank(c.implementationIdentity)
  {
    hide TypesOf;
    if DistinctNames(c.stateVariables) && DistinctNames(c.inputVariables) {
      NamesAreTypes(c.stateVariables);
      NamesAreTypes(c.inputVariables);
      NamesDisjoint(c.stateVariables, c.inputVariables);
    }
  }

  lemma NamesDisjoint(a: seq<VariableSpec>, b: seq<VariableSpec>)
    ensures NameSet(a) * NameSet(b) == {} <==>
      forall i, j | 0 <= i < |a| && 0 <= j < |b| :: a[i].name != b[j].name
  {
    forall i, j | 0 <= i < |a| && 0 <= j < |b| && a[i].name == b[j].name
      ensures a[i].name in NameSet(a) * NameSet(b)
    {
    }
  }

  /**
   The checker accepts exactly the contracts that make sense on values of the declared types, names
   irreversible effects as such, and calls everything else invalid.
   */
  lemma ValidationIsExact(c: Contract)
    ensures Validate(c).None? <==> WellFormed(c)
    ensures Validate(c) == Some(Unsupported) <==> Declared(c) && c.irreversibleEffects != []
    ensures Validate(c).Some? && Validate(c).value != Unsupported ==> Validate(c).value == Invalid
  {
    hide TypesOf, Blank, MakesSense, ConditionValid, TargetsValid, AssignmentsValid, Declared, SampleFor, DistinctNames;
    var ss, ins := TypesOf(c.stateVariables), TypesOf(c.inputVariables);
    DeclaredIs(c);
    if Declared(c) {
      forall scope
        ensures SampleFor(c, scope) <==> SampleScope(scope, ss, ins)
      {
        SampleForIs(c, scope);
      }
      forall scope | SampleFor(c, scope)
        ensures MakesSense(c, scope) <==>
          && ConditionValid(c.precondition, ss, ins) && ConditionValid(c.postcondition, ss, ins)
          && ConditionValid(c.restoration, ss, ins)
          && TargetsValid(c.forward, ss) && AssignmentsValid(c.forward, ss, ins)
          && TargetsValid(c.compensation, ss) && AssignmentsValid(c.compensation, ss, ins)
      {
        PartsAreExact(c, scope);
      }
      assert SampleFor(c, Scope(SomeRecord(ss), SomeRecord(ss), SomeRecord(ins)));
    }
  }

  lemma SampleForIs(c: Contract, scope: Scope)
    requires DistinctNames(c.stateVariables) && DistinctNames(c.inputVariables)
    ensures SampleFor(c, scope) <==> SampleScope(scope, TypesOf(c.stateVariables), TypesOf(c.inputVariables))
  {
    hide Sample, SampleOf, TypesOf;
    SamplesAre(scope.state, c.stateVariables);
    SamplesAre(scope.original, c.stateVariables);
    SamplesAre(scope.inputs, c.inputVariables);
  }

  // ── Repair constraints ────────────────────────────────────────────

  /** A retry obeys the constraint: the field stands in the relation to what the constraint names. */
  ghost predicate Obeys(scope: Scope, r: RepairConstraint) {
    var v := Lookup(r.field, r.source, scope);
    match r.value
    case ToLiteral(w) => Related(r.operator, v, w)
    case ToReference(source, field) => Related(r.operator, v, Lookup(field, source, scope))
    case ToExpression(e) => Related(r.operator, v, Value(e, scope))
  }

  lemma ConstraintMeans(k: Condition, scope: Scope)
    requires k.Comparison? && k.lhs.Ref?
    ensures Obeys(scope, ComparisonToRepair(k)) <==> True(k, scope)
  {
  }

  lemma {:induction false} RepairsAre(failed: seq<Condition>)
    requires forall k | 0 <= k < |failed| :: failed[k].Comparison? && failed[k].lhs.Ref?
    ensures |Repairs(failed)| == |failed|
    ensures forall k | 0 <= k < |failed| :: Repairs(failed)[k] == ComparisonToRepair(failed[k])
  {
    if failed != [] {
      RepairsAre(failed[1..]);
    }
  }

  /** What is listed are comparisons of the condition, valid like the whole. */
  lemma {:induction false} ListedOccur(c: Condition, scope: Scope, state: Types, inputs: Types)
    requires ConditionValid(c, state, inputs) && FailedComparisons(c, scope).Success?
    ensures forall k | k in FailedComparisons(c, scope).value ::
      k.Comparison? && Occurs(k, c) && ConditionValid(k, state, inputs)
    decreases c, 1
  {
    match c
    case AllOf(items) => ListedInOccur(items, c, scope, state, inputs);
    case AnyOf(items) =>
      if Check(c, scope) == Success(false) {
        ListedInOccur(items, c, scope, state, inputs);
      }
    case _ =>
  }

  lemma {:induction false} ListedInOccur(items: seq<Condition>, c: Condition, scope: Scope, state: Types, inputs: Types)
    requires forall i | 0 <= i < |items| :: ConditionValid(items[i], state, inputs)
    requires FailedIn(items, scope).Success?
    requires forall i, k | 0 <= i < |items| && Occurs(k, items[i]) :: Occurs(k, c)
    ensures forall k | k in FailedIn(items, scope).value ::
      k.Comparison? && Occurs(k, c) && ConditionValid(k, state, inputs)
    decreases items, 0
  {
    hide Occurs, ConditionValid, FailedComparisons;
    if items != [] {
      ListedOccur(items[0], scope, state, inputs);
      assert forall i | 0 <= i < |items[1..]| :: items[1..][i] == items[i + 1];
      ListedInOccur(items[1..], c, scope, state, inputs);
    }
  }

  /**
   A retry that obeys every constraint reported, and turns no other comparison of the violated
   condition false, makes that condition true.
   */
  lemma RepairsSuffice(c: Condition, before: Scope, after: Scope, state: Types, inputs: Types)
    requires ConditionValid(c, state, inputs) && Positive(c)
    requires forall k | Occurs(k, c) && k.Comparison? :: k.lhs.Ref?
    requires ScopeTyped(before, state, inputs) && ScopeTyped(after, state, inputs)
    requires FailedComparisons(c, before).Success?
    requires forall r | r in Repairs(FailedComparisons(c, before).value) :: Obeys(after, r)
    requires NothingBreaks(c, before, after)
    ensures True(c, after)
  {
    hide Obeys, ConditionValid, ScopeTyped, Positive, Occurs, FailedComparisons, Repairs, True, Check, ComparisonToRepair;
    var failed := FailedComparisons(c, before).value;
    ListedOccur(c, before, state, inputs);
    RepairsAre(failed);
    forall i | 0 <= i < |failed|
      ensures Holds(failed[i], after)
    {
      ConstraintMeans(failed[i], after);
      assert Repairs(failed)[i] in Repairs(failed);
      MeaningOfCondition(failed[i], after, state, inputs);
    }
    RepairSuffices(c, before, after, state, inputs);
    MeaningOfCondition(c, after, state, inputs);
  }
}
