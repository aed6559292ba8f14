/** The comparisons a failed condition can be blamed on, and why changing them repairs it. */
module ContractRepair {
  import opened Prelude
  import opened ContractDsl
  import opened ContractTyping

  /** `_failed_comparisons`, the errors being those of evaluating the condition's parts. */
  function FailedComparisons(c: Condition, scope: Scope): Result<seq<Condition>, Fault>
    decreases c, 1
  {
    match c
    case Comparison(_, _, _) =>
      var r := Check(c, scope);
      if r.Failure? then Failure(r.error) else Success(if r.value then [] else [c])
    case AllOf(items) => FailedIn(items, scope)
    case AnyOf(items) =>
      var r := Check(c, scope);
      if r.Failure? then Failure(r.error)
      else if r.value then Success([])
      else FailedIn(items, scope)
    case BoolConstant(_) => Success([])
    case Not(_) => Success([])
  }

  function FailedIn(items: seq<Condition>, scope: Scope): Result<seq<Condition>, Fault>
    decreases items, 0
  {
    if items == [] then Success([]) else
    var head := FailedComparisons(items[0], scope);
    if head.Failure? then head else
    var tail := FailedIn(items[1..], scope);
    if tail.Failure? then tail else Success(head.value + tail.value)
  }

  datatype RepairTarget = ToLiteral(value: Scalar) | ToReference(source: RefSource, field: string) | ToExpression(e: Expression)

  datatype RepairConstraint = RepairConstraint(
    field: string, source: RefSource, operator: ComparisonOperator, value: RepairTarget)

  function ComparisonToRepair(c: Condition): RepairConstraint
    requires c.Comparison? && c.lhs.Ref?
  {
    var target := match c.rhs
      case Literal(value) => ToLiteral(value)
      case Ref(name, source) => ToReference(source, name)
      case Binary(_, _, _) => ToExpression(c.rhs);
    RepairConstraint(c.lhs.name, c.lhs.source, c.operator, target)
  }

  /** `_repair_constraints` keeps the comparisons whose left side is a reference. */
  function Repairs(failed: seq<Condition>): seq<RepairConstraint> {
    if failed == [] then []
    else
      (if failed[0].Comparison? && failed[0].lhs.Ref? then [ComparisonToRepair(failed[0])] else [])
      + Repairs(failed[1..])
  }

  // ── What the list means ───────────────────────────────────────────

  ghost predicate AllFalse(failed: seq<Condition>, scope: Scope) {
    forall k | 0 <= k < |failed| :: failed[k].Comparison? && Check(failed[k], scope) == Success(false)
  }

  ghost predicate AllTrue(failed: seq<Condition>, scope: Scope) {
    forall k | 0 <= k < |failed| :: Holds(failed[k], scope)
  }

  /** A condition made of comparisons by conjunction and nonempty disjunction. */
  predicate Positive(c: Condition) {
    match c
    case Comparison(_, _, _) => true
    case AllOf(items) => forall i | 0 <= i < |items| :: Positive(items[i])
    case AnyOf(items) => items != [] && forall i | 0 <= i < |items| :: Positive(items[i])
    case BoolConstant(_) => false
    case Not(_) => false
  }

  /** The comparisons in a condition. */
  ghost predicate Occurs(k: Condition, c: Condition) {
    match c
    case Comparison(_, _, _) => k == c
    case AllOf(items) => exists i :: 0 <= i < |items| && Occurs(k, items[i])
    case AnyOf(items) => exists i :: 0 <= i < |items| && Occurs(k, items[i])
    case BoolConstant(_) => false
    case Not(item) => Occurs(k, item)
  }

  /** No comparison of the condition that was true has become false. */
  ghost predicate NothingBreaks(c: Condition, before: Scope, after: Scope) {
    forall k | Occurs(k, c) && Holds(k, before) :: Holds(k, after)
  }

  lemma {:induction false} CheckAllIs(items: seq<Condition>, scope: Scope)
    requires forall i | 0 <= i < |items| :: Check(items[i], scope).Success?
    ensures CheckAll(items, scope) == Success(forall i | 0 <= i < |items| :: Holds(items[i], scope))
    ensures CheckAny(items, scope) == Success(exists i | 0 <= i < |items| :: Holds(items[i], scope))
  {
    if items != [] {
      CheckAllIs(items[1..], scope);
      assert forall i | 1 <= i < |items| :: items[i] == items[1..][i - 1];
      if i :| 0 <= i < |items[1..]| && Holds(items[1..][i], scope) {
        assert Holds(items[i + 1], scope);
      }
      if i :| 0 <= i < |items| && Holds(items[i], scope) {
        assert i > 0 ==> Holds(items[1..][i - 1], scope);
      }
      if i :| 0 <= i < |items[1..]| && !Holds(items[1..][i], scope) {
        assert !Holds(items[i + 1], scope);
      }
    }
  }

  /** Every comparison listed is false in the given state, and a true condition lists none. */
  lemma {:induction false} ListedAreFalse(c: Condition, scope: Scope, state: Types, inputs: Types)
    requires ConditionValid(c, state, inputs) && ScopeTyped(scope, state, inputs)
    ensures FailedComparisons(c, scope).Success?
    ensures AllFalse(FailedComparisons(c, scope).value, scope)
    ensures Holds(c, scope) ==> FailedComparisons(c, scope).value == []
    decreases c, 1
  {
    ConditionSound(c, scope, state, inputs);
    match c
    case AllOf(items) =>
      ConditionsSound(items, scope, state, inputs);
      CheckAllIs(items, scope);
      ListedInAreFalse(items, scope, state, inputs);
    case AnyOf(items) =>
      ListedInAreFalse(items, scope, state, inputs);
    case _ =>
  }

  lemma {:induction false} ListedInAreFalse(items: seq<Condition>, scope: Scope, state: Types, inputs: Types)
    requires forall i | 0 <= i < |items| :: ConditionValid(items[i], state, inputs)
    requires ScopeTyped(scope, state, inputs)
    ensures FailedIn(items, scope).Success?
    ensures AllFalse(FailedIn(items, scope).value, scope)
    ensures (forall i | 0 <= i < |items| :: Holds(items[i], scope)) ==> FailedIn(items, scope).value == []
    decreases items, 0
  {
    if items != [] {
      ListedAreFalse(items[0], scope, state, inputs);
      ListedInAreFalse(items[1..], scope, state, inputs);
      assert forall i | 1 <= i < |items| :: items[i] == items[1..][i - 1];
    }
  }

  /**
   Making every listed comparison true, without making another comparison of the condition false,
   makes the whole condition true.
   */
  lemma {:induction false} RepairSuffices(c: Condition, before: Scope, after: Scope, state: Types, inputs: Types)
    requires ConditionValid(c, state, inputs) && Positive(c)
    requires ScopeTyped(before, state, inputs) && ScopeTyped(after, state, inputs)
    requires FailedComparisons(c, before).Success? && AllTrue(FailedComparisons(c, before).value, after)
    requires NothingBreaks(c, before, after)
    ensures Holds(c, after)
    decreases c, 1
  {
    ConditionSound(c, before, state, inputs);
    ConditionSound(c, after, state, inputs);
    match c
    case Comparison(_, _, _) =>
      assert Occurs(c, c);
      if !Holds(c, before) {
        assert FailedComparisons(c, before).value[0] == c;
      }
    case AllOf(items) =>
      ConditionsSound(items, after, state, inputs);
      CheckAllIs(items, after);
      PartsBreakNothing(items, c, before, after);
      RepairAll(items, before, after, state, inputs);
    case AnyOf(items) =>
      ConditionsSound(items, before, state, inputs);
      ConditionsSound(items, after, state, inputs);
      CheckAllIs(items, before);
      CheckAllIs(items, after);
      PartsBreakNothing(items, c, before, after);
      if Holds(c, before) {
        var i :| 0 <= i < |items| && Holds(items[i], before);
        ListedAreFalse(items[i], before, state, inputs);
        RepairSuffices(items[i], before, after, state, inputs);
      } else {
        RepairAll(items, before, after, state, inputs);
        assert Holds(items[0], after);
      }
  }

  lemma PartsBreakNothing(items: seq<Condition>, c: Condition, before: Scope, after: Scope)
    requires c == AllOf(items) || c == AnyOf(items)
    requires NothingBreaks(c, before, after)
    ensures forall i | 0 <= i < |items| :: NothingBreaks(items[i], before, after)
  {
    forall i, k | 0 <= i < |items| && Occurs(k, items[i]) && Holds(k, before)
      ensures Holds(k, after)
    {
      assert Occurs(k, c);
    }
  }

  lemma {:induction false} RepairAll(items: seq<Condition>, before: Scope, after: Scope, state: Types, inputs: Types)
    requires forall i | 0 <= i < |items| :: ConditionValid(items[i], state, inputs) && Positive(items[i])
    requires forall i | 0 <= i < |items| :: NothingBreaks(items[i], before, after)
    requires ScopeTyped(before, state, inputs) && ScopeTyped(after, state, inputs)
    requires FailedIn(items, before).Success? && AllTrue(FailedIn(items, before).value, after)
    ensures forall i | 0 <= i < |items| :: Holds(items[i], after)
    decreases items, 0
  {
    if items != [] {
      var head, tail := FailedComparisons(items[0], before).value, FailedIn(items[1..], before).value;
      assert FailedIn(items, before).value == head + tail;
      assert forall k | 0 <= k < |head| :: head[k] == (head + tail)[k];
      assert forall k | 0 <= k < |tail| :: tail[k] == (head + tail)[|head| + k];
      RepairSuffices(items[0], before, after, state, inputs);
      RepairAll(items[1..], before, after, state, inputs);
      assert forall i | 1 <= i < |items| :: items[i] == items[1..][i - 1];
    }
  }
}
