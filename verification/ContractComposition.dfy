/**
 Proved contracts compose: a chain of forward transitions, each from an admissible state in its
 contract's domain, is taken back by the compensations in reverse order.
 */
module ContractComposition {
  import opened Prelude
  import opened ContractDsl
  import opened ContractTyping
  import opened ContractRepair
  import opened ContractCases
  import opened ContractVerifier

  // ── States equal up to the representation of numbers ──────────────

  /** Python's equality on values of one type: an integer equals a float of the same value. */
  ghost predicate Same(v: Scalar, w: Scalar) {
    || v == w
    || ((v.IntValue? || v.RealValue?) && (w.IntValue? || w.RealValue?) && Numeric(v) == Numeric(w))
  }

  ghost predicate SameRecord(a: Record, b: Record) {
    a.Keys == b.Keys && forall x | x in a :: Same(a[x], b[x])
  }

  ghost predicate SameResult(a: Result<Scalar, Fault>, b: Result<Scalar, Fault>) {
    if a.Success? && b.Success? then Same(a.value, b.value) else a == b
  }

  lemma IntOpIsRealOp(op: ArithmeticOperator, x: int, y: int)
    ensures IntOp(op, x, y) as real == RealOp(op, x as real, y as real)
  {
  }

  /** The result of an arithmetic operation on numbers is the one on their numeric values. */
  lemma ArithmeticNumeric(op: ArithmeticOperator, v: Scalar, w: Scalar)
    requires (v.IntValue? || v.RealValue?) && (w.IntValue? || w.RealValue?)
    ensures var r := Arithmetic(op, v, w);
      && r.Success? && (r.value.IntValue? || r.value.RealValue?)
      && Numeric(r.value).value == RealOp(op, Numeric(v).value, Numeric(w).value)
  {
    if v.IntValue? && w.IntValue? {
      IntOpIsRealOp(op, v.i, w.i);
    }
  }

  lemma ArithmeticSame(op: ArithmeticOperator, v: Scalar, w: Scalar, v': Scalar, w': Scalar)
    requires Same(v, v') && Same(w, w')
    ensures SameResult(Arithmetic(op, v, w), Arithmetic(op, v', w'))
  {
    hide RealOp, IntOp;
    if (v.IntValue? || v.RealValue?) && (w.IntValue? || w.RealValue?) {
      ArithmeticNumeric(op, v, w);
      ArithmeticNumeric(op, v', w');
    }
  }

  /** Evaluation does not distinguish equal states. */
  lemma {:induction false} EvaluateSame(e: Expression, a: Scope, b: Scope)
    requires SameRecord(a.state, b.state) && a.original == b.original && a.inputs == b.inputs
    ensures SameResult(Evaluate(e, a), Evaluate(e, b))
  {
    match e
    case Literal(_) =>
    case Ref(_, _) =>
    case Binary(op, left, right) =>
      EvaluateSame(left, a, b);
      EvaluateSame(right, a, b);
      var l, r, l', r' := Evaluate(left, a), Evaluate(right, a), Evaluate(left, b), Evaluate(right, b);
      if l.Success? && r.Success? {
        ArithmeticSame(op, l.value, r.value, l'.value, r'.value);
      }
  }

  lemma {:induction false} UpdatesSame(t: Transition, a: Scope, b: Scope)
    requires SameRecord(a.state, b.state) && a.original == b.original && a.inputs == b.inputs
    ensures var u, v := Updates(t, a), Updates(t, b);
      (u.Success? <==> v.Success?) && (u.Success? ==> SameRecord(u.value, v.value))
  {
    if t != [] {
      EvaluateSame(t[0].value, a, b);
      UpdatesSame(t[1..], a, b);
    }
  }

  lemma StepSame(t: Transition, a: Scope, b: Scope)
    requires SameRecord(a.state, b.state) && a.original == b.original && a.inputs == b.inputs
    ensures var u, v := Step(t, a), Step(t, b);
      (u.Success? <==> v.Success?) && (u.Success? ==> SameRecord(u.value, v.value))
  {
    UpdatesSame(t, a, b);
  }

  // ── A contract sees only its own variables ────────────────────────

  /** The two records agree on the declared variables. */
  ghost predicate Agree(a: Record, b: Record, types: Types) {
    forall x | x in types :: x in a && x in b && a[x] == b[x]
  }

  ghost predicate ScopesAgree(a: Scope, b: Scope, state: Types, inputs: Types) {
    Agree(a.state, b.state, state) && Agree(a.original, b.original, state) && Agree(a.inputs, b.inputs, inputs)
  }

  lemma {:induction false} EvaluateLocal(e: Expression, a: Scope, b: Scope, state: Types, inputs: Types)
    requires RefsKnown(e, state, inputs) && ScopesAgree(a, b, state, inputs)
    ensures Evaluate(e, a) == Evaluate(e, b)
  {
    match e
    case Literal(_) =>
    case Ref(_, _) =>
    case Binary(_, left, right) =>
      EvaluateLocal(left, a, b, state, inputs);
      EvaluateLocal(right, a, b, state, inputs);
  }

  lemma {:induction false} UpdatesLocal(t: Transition, a: Scope, b: Scope, state: Types, inputs: Types)
    requires forall i | 0 <= i < |t| :: RefsKnown(t[i].value, state, inputs)
    requires ScopesAgree(a, b, state, inputs)
    ensures Updates(t, a) == Updates(t, b)
  {
    if t != [] {
      EvaluateLocal(t[0].value, a, b, state, inputs);
      UpdatesLocal(t[1..], a, b, state, inputs);
    }
  }

  /** A transition on a larger state changes what it changes on the contract's variables, and nothing else. */
  lemma StepLocal(t: Transition, a: Scope, b: Scope, state: Types, inputs: Types)
    requires TargetsValid(t, state) && AssignmentsValid(t, state, inputs)
    requires ScopesAgree(a, b, state, inputs) && ScopeTyped(b, state, inputs)
    ensures Step(t, a).Success? && Step(t, b).Success?
    ensures Agree(Step(t, a).value, Step(t, b).value, state)
    ensures Step(t, a).value.Keys == a.state.Keys
    ensures forall x | x in a.state && x !in state :: Step(t, a).value[x] == a.state[x]
  {
    UpdatesLocal(t, a, b, state, inputs);
    TransitionSound(t, b, state, inputs);
    forall i | 0 <= i < |t|
      ensures Evaluate(t[i].value, b).Success?
    {
      ExpressionSound(t[i].value, b, state, inputs);
    }
    UpdatesAre(t, b);
  }

  // ── Chains ────────────────────────────────────────────────────────

  /** One use of a contract in a saga: the contract and the inputs of this action. */
  datatype Use = Use(contract: Contract, inputs: Record)

  /** Wherever the restoration condition holds, every state variable is back. */
  ghost predicate RestoresAll(c: Contract) {
    forall scope: Scope ::
      ScopeTyped(scope, TypesOf(c.stateVariables), TypesOf(c.inputVariables)) && Holds(c.restoration, scope)
      ==> Restored(c, scope)
  }

  ghost predicate Restored(c: Contract, scope: Scope) {
    forall i | 0 <= i < |c.stateVariables| ::
      var v := c.stateVariables[i].name;
      v in scope.state && v in scope.original && Same(scope.state[v], scope.original[v])
  }

  /** The verifier's certificate is PROVED. */
  ghost predicate IsProved(c: Contract, maxCases: nat) {
    Verdict(c, maxCases).Success? && Verdict(c, maxCases).value.status == Proved
  }

  /** The step may start here: its contract is proved, the state and inputs are in its domain, and admissible. */
  ghost predicate MayStart(use: Use, s: Record, maxCases: nat) {
    && IsProved(use.contract, maxCases) && RestoresAll(use.contract)
    && InDomain(s, use.contract.stateVariables)
    && InDomain(use.inputs, use.contract.inputVariables)
    && use.inputs.Keys == NameSet(use.contract.inputVariables)
    && Holds(use.contract.precondition, Scope(s, s, use.inputs))
  }

  ghost function Forward(use: Use, s: Record): Result<Record, Fault> {
    Step(use.contract.forward, Scope(s, s, use.inputs))
  }

  ghost function Compensate(use: Use, t: Record, original: Record): Result<Record, Fault> {
    Step(use.contract.compensation, Scope(t, original, use.inputs))
  }

  /** The states of the forward chain, the first one being s. */
  ghost predicate IsChain(uses: seq<Use>, states: seq<Record>, maxCases: nat) {
    && |states| == |uses| + 1
    && forall i | 0 <= i < |uses| ::
         MayStart(uses[i], states[i], maxCases) && Forward(uses[i], states[i]) == Success(states[i + 1])
  }

  /** The compensations of the first n steps, the latest first, from t on. */
  ghost function UndoChain(uses: seq<Use>, states: seq<Record>, n: nat, t: Record): Result<Record, Fault>
    requires n <= |uses| && |states| == |uses| + 1
  {
    if n == 0 then Success(t) else
    var back := Compensate(uses[n - 1], t, states[n - 1]);
    if back.Failure? then back else UndoChain(uses, states, n - 1, back.value)
  }

  // ── One step ──────────────────────────────────────────────────────

  /** The case of this start is among those the verifier went through. */
  lemma StartIsACase(use: Use, s: Record, maxCases: nat)
    requires MayStart(use, s, maxCases)
    ensures Case(Restrict(s, NameSet(use.contract.stateVariables)), use.inputs) in AllCases(use.contract, maxCases)
  {
    hide Validate, Domains, InDomain, Holds, Scan, RestoresAll, Records, Cases, Size, Domain, DistinctNames;
    var c := use.contract;
    ValidNames(c);
    var i := RecordIndex(c.stateVariables, maxCases, s);
    var j := RecordIndex(c.inputVariables, maxCases, use.inputs);
    assert Restrict(use.inputs, NameSet(c.inputVariables)) == use.inputs;
    CaseAt(StateRecords(c, maxCases), InputRecords(c, maxCases), i, j);
    var p := i * |InputRecords(c, maxCases)| + j;
    assert AllCases(c, maxCases)[p] == Case(Restrict(s, NameSet(c.stateVariables)), use.inputs);
  }

  lemma ValidNames(c: Contract)
    requires Validate(c).None?
    ensures DistinctNames(c.stateVariables) && DistinctNames(c.inputVariables)
  {
  }

  lemma {:induction false} CheckLocal(c: Condition, a: Scope, b: Scope, state: Types, inputs: Types)
    requires ConditionRefsKnown(c, state, inputs) && ScopesAgree(a, b, state, inputs)
    ensures Check(c, a) == Check(c, b)
    decreases c, 1
  {
    match c
    case BoolConstant(_) =>
    case Comparison(_, left, right) =>
      EvaluateLocal(left, a, b, state, inputs);
      EvaluateLocal(right, a, b, state, inputs);
    case AllOf(items) => ChecksLocal(items, a, b, state, inputs);
    case AnyOf(items) => ChecksLocal(items, a, b, state, inputs);
    case Not(item) => CheckLocal(item, a, b, state, inputs);
  }

  lemma {:induction false} ChecksLocal(items: seq<Condition>, a: Scope, b: Scope, state: Types, inputs: Types)
    requires forall i | 0 <= i < |items| :: ConditionRefsKnown(items[i], state, inputs)
    requires ScopesAgree(a, b, state, inputs)
    ensures CheckAll(items, a) == CheckAll(items, b) && CheckAny(items, a) == CheckAny(items, b)
    decreases items, 0
  {
    if items != [] {
      CheckLocal(items[0], a, b, state, inputs);
      ChecksLocal(items[1..], a, b, state, inputs);
    }
  }

  /** The restriction of a state in the domain is typed, and agrees with the state. */
  lemma RestrictedIsTyped(use: Use, s: Record, maxCases: nat)
    requires MayStart(use, s, maxCases)
    ensures var r := Restrict(s, NameSet(use.contract.stateVariables));
      && Typed(r, TypesOf(use.contract.stateVariables)) && Agree(s, r, TypesOf(use.contract.stateVariables))
      && Typed(use.inputs, TypesOf(use.contract.inputVariables))
      && TypesOf(use.contract.stateVariables).Keys <= s.Keys
      && forall x | x in s && x !in TypesOf(use.contract.stateVariables) :: x !in r
  {
    var c := use.contract;
    assert DistinctNames(c.stateVariables) && DistinctNames(c.inputVariables) && Validate(c).None?;
    assert Domains(c.stateVariables, maxCases).Success? && Domains(c.inputVariables, maxCases).Success?;
    hide Validate, TypesOf, Domain, Domains, Matches, IsProved, Holds, RestoresAll;
    DomainIsTyped(s, c.stateVariables, maxCases);
    DomainIsTyped(use.inputs, c.inputVariables, maxCases);
    NamesAreTypes(c.stateVariables);
  }

  lemma DomainIsTyped(r: Record, specs: seq<VariableSpec>, maxCases: nat)
    requires DistinctNames(specs) && Domains(specs, maxCases).Success? && InDomain(r, specs)
    ensures Typed(r, TypesOf(specs))
  {
    hide TypesOf, Domain, Domains, Matches, Allows;
    TypesOfDistinct(specs);
    DomainsAre(specs, maxCases);
    forall x | x in TypesOf(specs)
      ensures x in r && Matches(r[x], TypesOf(specs)[x])
    {
      var i :| 0 <= i < |specs| && specs[i].name == x;
      DomainTable(specs[i], maxCases);
      DomainMatches(specs[i], maxCases, Domain(specs[i], maxCases).value);
    }
  }

  /** What a PROVED certificate says about an admissible start. */
  lemma StartMeets(use: Use, s: Record, maxCases: nat)
    requires MayStart(use, s, maxCases)
    ensures Meets(use.contract, Case(Restrict(s, NameSet(use.contract.stateVariables)), use.inputs))
  {
    var c := use.contract;
    var x := Case(Restrict(s, NameSet(c.stateVariables)), use.inputs);
    StartIsACase(use, s, maxCases);
    VerdictIsExact(c, maxCases);
    RestrictedIsTyped(use, s, maxCases);
    assert ConditionRefsKnown(c.precondition, TypesOf(c.stateVariables), TypesOf(c.inputVariables)) by { ValidParts(c); }
    hide Validate, Scan, Fits, AllCases, Judge, Meets, RestoresAll, InDomain;
    CheckLocal(c.precondition, Scope(s, s, use.inputs), Scope(x.state, x.state, x.inputs),
               TypesOf(c.stateVariables), TypesOf(c.inputVariables));
    var cases := AllCases(c, maxCases);
    var k :| 0 <= k < |cases| && cases[k] == x;
    assert !Fails(c, cases[k]);
  }

  // ── What restoration conditions restore all ───────────────────────

  /** The condition is the equation, or a conjunction one part of which demands it. */
  predicate Demands(c: Condition, equation: Condition) {
    c == equation || (c.AllOf? && exists i :: 0 <= i < |c.conjuncts| && Demands(c.conjuncts[i], equation))
  }

  function Equation(v: string, turned: bool): Condition {
    if turned then Comparison(Eq, Ref(v, OriginalSource), Ref(v, StateSource))
    else Comparison(Eq, Ref(v, StateSource), Ref(v, OriginalSource))
  }

  /** Every state variable is equated with its original value, one way round or the other. */
  predicate DemandsAll(c: Contract) {
    forall i | 0 <= i < |c.stateVariables| ::
      Demands(c.restoration, Equation(c.stateVariables[i].name, false))
      || Demands(c.restoration, Equation(c.stateVariables[i].name, true))
  }

  lemma {:induction false} DemandedHolds(c: Condition, equation: Condition, scope: Scope, state: Types, inputs: Types)
    requires ConditionValid(c, state, inputs) && ScopeTyped(scope, state, inputs)
    requires Holds(c, scope) && Demands(c, equation)
    ensures Holds(equation, scope)
  {
    if c != equation {
      var i :| 0 <= i < |c.conjuncts| && Demands(c.conjuncts[i], equation);
      ConditionsSound(c.conjuncts, scope, state, inputs);
      CheckAllIs(c.conjuncts, scope);
      DemandedHolds(c.conjuncts[i], equation, scope, state, inputs);
    }
  }

  /** A valid contract whose restoration demands the equation of every variable restores them all. */
  lemma DemandsRestore(c: Contract)
    requires Validate(c).None? && DemandsAll(c)
    ensures RestoresAll(c)
  {
    var state, inputs := TypesOf(c.stateVariables), TypesOf(c.inputVariables);
    assert ConditionValid(c.restoration, state, inputs) && DistinctNames(c.stateVariables) by { ValidParts(c); }
    TypesOfDistinct(c.stateVariables);
    hide Validate, TypesOf, ConditionValid, Check, Same, Demands, Equation;
    forall scope: Scope | ScopeTyped(scope, state, inputs) && Holds(c.restoration, scope)
      ensures Restored(c, scope)
    {
      forall i | 0 <= i < |c.stateVariables|
        ensures var v := c.stateVariables[i].name;
          v in scope.state && v in scope.original && Same(scope.state[v], scope.original[v])
      {
        var v := c.stateVariables[i].name;
        var turned := !Demands(c.restoration, Equation(v, false));
        DemandedHolds(c.restoration, Equation(v, turned), scope, state, inputs);
        SameKind(scope, state, inputs, v);
        EquationMeans(v, turned, scope);
      }
    }
  }

  lemma SameKind(scope: Scope, state: Types, inputs: Types, v: string)
    requires ScopeTyped(scope, state, inputs) && v in state
    ensures v in scope.state && v in scope.original
    ensures scope.state[v].BoolValue? <==> scope.original[v].BoolValue?
  {
  }

  lemma EquationMeans(v: string, turned: bool, scope: Scope)
    requires Holds(Equation(v, turned), scope)
    requires v in scope.state && v in scope.original && (scope.state[v].BoolValue? <==> scope.original[v].BoolValue?)
    ensures Same(scope.state[v], scope.original[v])
  {
    var now, was := Evaluate(Ref(v, StateSource), scope), Evaluate(Ref(v, OriginalSource), scope);
    assert now.Success? && was.Success?;
  }

  /** One compensation, from a state equal to the one its forward step left, restores the state before it. */
  lemma UndoOne(use: Use, s: Record, after: Record, t: Record, maxCases: nat)
    requires MayStart(use, s, maxCases) && Forward(use, s) == Success(after) && SameRecord(t, after)
    ensures Compensate(use, t, s).Success? && SameRecord(Compensate(use, t, s).value, s)
  {
    var c, ins := use.contract, use.inputs;
    var state, inputs := TypesOf(c.stateVariables), TypesOf(c.inputVariables);
    var r := Restrict(s, NameSet(c.stateVariables));
    StartMeets(use, s, maxCases);
    RestrictedIsTyped(use, s, maxCases);
    assert Validate(c).None?;
    assert TargetsValid(c.forward, state) && AssignmentsValid(c.forward, state, inputs);
    assert TargetsValid(c.compensation, state) && AssignmentsValid(c.compensation, state, inputs);
    assert DistinctNames(c.stateVariables);
    hide Validate, Fits, Scan, AllCases, Step, TypesOf, InDomain, Holds, TargetsValid, AssignmentsValid, Restrict, Same;
    StepLocal(c.forward, Scope(s, s, ins), Scope(r, r, ins), state, inputs);
    var fx := Step(c.forward, Scope(r, r, ins)).value;
    TransitionSound(c.forward, Scope(r, r, ins), state, inputs);
    StepLocal(c.compensation, Scope(after, s, ins), Scope(fx, r, ins), state, inputs);
    var rx := Step(c.compensation, Scope(fx, r, ins)).value;
    TransitionSound(c.compensation, Scope(fx, r, ins), state, inputs);
    var u := Step(c.compensation, Scope(after, s, ins)).value;
    StepSame(c.compensation, Scope(t, s, ins), Scope(after, s, ins));
    var t' := Step(c.compensation, Scope(t, s, ins)).value;
    forall x | x in s
      ensures Same(u[x], s[x])
    {
      if x in state {
        TypesOfDistinct(c.stateVariables);
        var i :| 0 <= i < |c.stateVariables| && c.stateVariables[i].name == x;
        assert Restored(c, Scope(rx, r, ins));
      } else {
        SameReflexive(s[x]);
      }
    }
    forall x | x in s
      ensures Same(t'[x], s[x])
    {
      SameTransitive(t'[x], u[x], s[x]);
    }
  }

  lemma SameReflexive(v: Scalar)
    ensures Same(v, v)
  {
  }

  lemma SameTransitive(u: Scalar, v: Scalar, w: Scalar)
    requires Same(u, v) && Same(v, w)
    ensures Same(u, w)
  {
  }

  // ── Main theorem ──────────────────────────────────────────────────

  lemma {:induction false} UndoChainRestores(uses: seq<Use>, states: seq<Record>, n: nat, t: Record, maxCases: nat)
    requires IsChain(uses, states, maxCases) && n <= |uses| && SameRecord(t, states[n])
    ensures UndoChain(uses, states, n, t).Success?
    ensures SameRecord(UndoChain(uses, states, n, t).value, states[0])
  {
    hide MayStart, Forward, Compensate, SameRecord;
    if n > 0 {
      UndoOne(uses[n - 1], states[n - 1], states[n], t, maxCases);
      UndoChainRestores(uses, states, n - 1, Compensate(uses[n - 1], t, states[n - 1]).value, maxCases);
    }
  }

  /**
   Forward transitions under proved contracts, each started admissibly in its domain, and then the
   compensations in reverse order: no evaluation fails, and the initial state is back.
   */
  lemma ProvedContractsCompose(uses: seq<Use>, states: seq<Record>, maxCases: nat)
    requires IsChain(uses, states, maxCases)
    ensures var back := UndoChain(uses, states, |uses|, states[|uses|]);
      back.Success? && SameRecord(back.value, states[0])
  {
    UndoChainRestores(uses, states, |uses|, states[|uses|], maxCases);
  }
}
