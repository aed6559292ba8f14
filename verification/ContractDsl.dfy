/**
 The typed language of compensation contracts and its evaluator. Integers and floats are exact:
 unbounded integers and real numbers, an integer being promoted when it meets a real.
 */
module ContractDsl {
  import opened Prelude

  datatype Scalar = BoolValue(b: bool) | IntValue(i: int) | RealValue(r: real) | StringValue(s: string)

  datatype ValueType = IntegerType | RealType | BooleanType | StringType

  /** Where a reference looks: the state of the current phase, the original state, or the action's input. */
  datatype RefSource = StateSource | OriginalSource | InputSource

  datatype ArithmeticOperator = Add | Subtract | Multiply

  datatype ComparisonOperator = Eq | Ne | Lt | Le | Gt | Ge

  datatype Expression =
    | Ref(name: string, source: RefSource)
    | Literal(value: Scalar)
    | Binary(op: ArithmeticOperator, left: Expression, right: Expression)

  datatype Condition =
    | BoolConstant(constant: bool)
    | Comparison(operator: ComparisonOperator, lhs: Expression, rhs: Expression)
    | AllOf(conjuncts: seq<Condition>)
    | AnyOf(disjuncts: seq<Condition>)
    | Not(negated: Condition)

  datatype Assignment = Assignment(target: string, value: Expression)

  /** Simultaneous assignments; variables that are not assigned keep their value. */
  type Transition = seq<Assignment>

  datatype VariableSpec = VariableSpec(
    name: string, valueType: ValueType, bounds: Option<(int, int)>, allowedValues: seq<Scalar>)

  datatype Contract = Contract(
    name: string,
    stateVariables: seq<VariableSpec>,
    inputVariables: seq<VariableSpec>,
    precondition: Condition,
    forward: Transition,
    postcondition: Condition,
    compensation: Transition,
    restoration: Condition,
    implementationIdentity: string,
    irreversibleEffects: seq<string>)

  /** The exceptions of the verifier. KeyMissing is the one that none of its handlers catches. */
  datatype Fault = Invalid | Unsupported | TooLarge | KeyMissing

  type Record = map<string, Scalar>

  /** What an expression is evaluated in. */
  datatype Scope = Scope(state: Record, original: Record, inputs: Record)

  // ── Scalars ───────────────────────────────────────────────────────

  /** Python compares booleans, integers and floats by their numeric value. */
  function Numeric(v: Scalar): Option<real> {
    match v
    case BoolValue(b) => Some(if b then 1.0 else 0.0)
    case IntValue(i) => Some(i as real)
    case RealValue(r) => Some(r)
    case StringValue(_) => None
  }

  predicate StringLess(a: string, b: string) {
    b != [] && (a == [] || a[0] < b[0] || (a[0] == b[0] && StringLess(a[1..], b[1..])))
  }

  function CompareNumbers(op: ComparisonOperator, x: real, y: real): bool {
    match op
    case Eq => x == y
    case Ne => x != y
    case Lt => x < y
    case Le => x <= y
    case Gt => x > y
    case Ge => x >= y
  }

  function CompareStrings(op: ComparisonOperator, x: string, y: string): bool {
    match op
    case Eq => x == y
    case Ne => x != y
    case Lt => StringLess(x, y)
    case Le => x == y || StringLess(x, y)
    case Gt => StringLess(y, x)
    case Ge => x == y || StringLess(y, x)
  }

  /** `_compare`: a number and a string are unequal, and ordering them is a TypeError. */
  function Compare(op: ComparisonOperator, left: Scalar, right: Scalar): Result<bool, Fault> {
    if left.StringValue? && right.StringValue? then Success(CompareStrings(op, left.s, right.s))
    else if left.StringValue? || right.StringValue? then
      match op
      case Eq => Success(false)
      case Ne => Success(true)
      case _ => Failure(Invalid)
    else Success(CompareNumbers(op, Numeric(left).value, Numeric(right).value))
  }

  function IntOp(op: ArithmeticOperator, x: int, y: int): int {
    match op
    case Add => x + y
    case Subtract => x - y
    case Multiply => x * y
  }

  function RealOp(op: ArithmeticOperator, x: real, y: real): real {
    match op
    case Add => x + y
    case Subtract => x - y
    case Multiply => x * y
  }

  function Arithmetic(op: ArithmeticOperator, left: Scalar, right: Scalar): Result<Scalar, Fault> {
    if left.BoolValue? || left.StringValue? || right.BoolValue? || right.StringValue? then Failure(Invalid)
    else if left.IntValue? && right.IntValue? then Success(IntValue(IntOp(op, left.i, right.i)))
    else Success(RealValue(RealOp(op, Numeric(left).value, Numeric(right).value)))
  }

  // ── Evaluation ────────────────────────────────────────────────────

  function Source(scope: Scope, source: RefSource): Record {
    match source
    case StateSource => scope.state
    case OriginalSource => scope.original
    case InputSource => scope.inputs
  }

  /** `_expression`. */
  function Evaluate(e: Expression, scope: Scope): Result<Scalar, Fault> {
    match e
    case Literal(value) => Success(value)
    case Ref(name, source) =>
      if name in Source(scope, source) then Success(Source(scope, source)[name]) else Failure(KeyMissing)
    case Binary(op, left, right) =>
      var l := Evaluate(left, scope);
      if l.Failure? then l else
      var r := Evaluate(right, scope);
      if r.Failure? then r else Arithmetic(op, l.value, r.value)
  }

  /** `_condition`; `all` and `any` stop at the first item that decides, or that raises. */
  function Check(c: Condition, scope: Scope): Result<bool, Fault>
    decreases c, 1
  {
    match c
    case BoolConstant(b) => Success(b)
    case AllOf(items) => CheckAll(items, scope)
    case AnyOf(items) => CheckAny(items, scope)
    case Not(item) =>
      var r := Check(item, scope);
      if r.Failure? then r else Success(!r.value)
    case Comparison(op, left, right) =>
      var l := Evaluate(left, scope);
      if l.Failure? then Failure(l.error) else
      var r := Evaluate(right, scope);
      if r.Failure? then Failure(r.error) else Compare(op, l.value, r.value)
  }

  function CheckAll(items: seq<Condition>, scope: Scope): Result<bool, Fault>
    decreases items, 0
  {
    if items == [] then Success(true) else
    var r := Check(items[0], scope);
    if r.Failure? || !r.value then r else CheckAll(items[1..], scope)
  }

  function CheckAny(items: seq<Condition>, scope: Scope): Result<bool, Fault>
    decreases items, 0
  {
    if items == [] then Success(false) else
    var r := Check(items[0], scope);
    if r.Failure? || r.value then r else CheckAny(items[1..], scope)
  }

  /** The condition evaluates without error to true. */
  predicate Holds(c: Condition, scope: Scope) {
    Check(c, scope) == Success(true)
  }

  /** The assigned values, all read in the same scope. */
  function Updates(t: Transition, scope: Scope): Result<Record, Fault> {
    if t == [] then Success(map[]) else
    var v := Evaluate(t[0].value, scope);
    if v.Failure? then Failure(v.error) else
    var rest := Updates(t[1..], scope);
    if rest.Failure? then rest
    else Success(map[t[0].target := v.value] + rest.value)
  }

  /** `_transition`: the state with the updates applied. */
  function Step(t: Transition, scope: Scope): Result<Record, Fault> {
    var updates := Updates(t, scope);
    if updates.Failure? then updates else Success(scope.state + updates.value)
  }
}
