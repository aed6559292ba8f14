/** The bounded verifier: its verdict is exact for every contract that fits its bounds. */
module ContractVerifier {
  import opened Prelude
  import opened ContractDsl
  import opened ContractTyping
  import opened ContractRepair
  import opened ContractCases

  datatype ProofStatus = Proved | Rejected | InvalidContract | Unknown | UnsupportedContract

  datatype Violation = PostconditionViolated | RestorationViolated

  datatype Counterexample = Counterexample(
    violated: Violation, originalState: Record, inputs: Record, afterForward: Record, afterCompensation: Option<Record>)

  /** The verdict. Hashes, names and messages are not part of it. */
  datatype Certificate = Certificate(
    status: ProofStatus,
    casesChecked: nat,
    admissibleCases: nat,
    counterexample: Option<Counterexample>,
    repairConstraints: seq<RepairConstraint>)

  datatype Case = Case(state: Record, inputs: Record)

  function Bare(status: ProofStatus, checked: nat, admissible: nat): Certificate {
    Certificate(status, checked, admissible, None, [])
  }

  // ── One case ──────────────────────────────────────────────────────

  /** `_ensure_state_types`. */
  function EnsureStateTypes(state: Record, specs: seq<VariableSpec>): Option<Fault> {
    if specs == [] then None
    else if specs[0].name !in state then Some(KeyMissing)
    else if !Matches(state[specs[0].name], specs[0].valueType) then Some(Invalid)
    else EnsureStateTypes(state, specs[1..])
  }

  /** What one round of the loop comes to. Raised says whether the case had been counted as admissible. */
  datatype Judgement =
    | Skipped
    | Passed
    | Violated(counterexample: Counterexample, repairs: seq<RepairConstraint>)
    | Raised(fault: Fault, counted: bool)

  /** A transition followed by the type check of its result. */
  function TypedStep(t: Transition, scope: Scope, specs: seq<VariableSpec>): Result<Record, Fault> {
    var r := Step(t, scope);
    if r.Failure? then r
    else
      var fault := EnsureStateTypes(r.value, specs);
      if fault.Some? then Failure(fault.value) else r
  }

  function Report(c: Condition, scope: Scope, counterexample: Counterexample): Judgement {
    var failed := FailedComparisons(c, scope);
    if failed.Failure? then Raised(failed.error, true) else Violated(counterexample, Repairs(failed.value))
  }

  function Judge(c: Contract, x: Case): Judgement {
    var pre := Check(c.precondition, Scope(x.state, x.state, x.inputs));
    if pre.Failure? then Raised(pre.error, false)
    else if !pre.value then Skipped
    else
      var after := TypedStep(c.forward, Scope(x.state, x.state, x.inputs), c.stateVariables);
      if after.Failure? then Raised(after.error, true) else JudgeAfter(c, x, after.value)
  }

  function JudgeAfter(c: Contract, x: Case, after: Record): Judgement {
    var scope := Scope(after, x.state, x.inputs);
    var post := Check(c.postcondition, scope);
    if post.Failure? then Raised(post.error, true)
    else if !post.value then
      Report(c.postcondition, scope, Counterexample(PostconditionViolated, x.state, x.inputs, after, None))
    else
      var restored := TypedStep(c.compensation, scope, c.stateVariables);
      if restored.Failure? then Raised(restored.error, true) else
      var back := Scope(restored.value, x.state, x.inputs);
      var restoration := Check(c.restoration, back);
      if restoration.Failure? then Raised(restoration.error, true)
      else if !restoration.value then
        Report(c.restoration, back,
               Counterexample(RestorationViolated, x.state, x.inputs, after, Some(restored.value)))
      else Passed
  }

  /** How an exception that ends the loop is certified; KeyMissing escapes the verifier. */
  function Certify(fault: Fault, checked: nat, admissible: nat): Result<Certificate, Fault> {
    match fault
    case KeyMissing => Failure(KeyMissing)
    case Unsupported => Success(Bare(UnsupportedContract, checked, admissible))
    case Invalid => Success(Bare(InvalidContract, checked, admissible))
    case TooLarge => Success(Bare(InvalidContract, checked, admissible))
  }

  // ── All cases ─────────────────────────────────────────────────────

  function Row(state: Record, inputs: seq<Record>): seq<Case> {
    seq(|inputs|, j requires 0 <= j < |inputs| => Case(state, inputs[j]))
  }

  lemma RowIs(state: Record, inputs: seq<Record>)
    ensures |Row(state, inputs)| == |inputs|
    ensures forall j | 0 <= j < |inputs| :: Row(state, inputs)[j] == Case(state, inputs[j])
  {
  }

  /** The cases in the order of the two nested loops. */
  function Cases(states: seq<Record>, inputs: seq<Record>): seq<Case> {
    if states == [] then [] else Row(states[0], inputs) + Cases(states[1..], inputs)
  }

  /** The verdict from position k on, with the admissible cases counted so far. */
  function Scan(c: Contract, cases: seq<Case>, k: nat, admissible: nat): Result<Certificate, Fault>
    requires k <= |cases|
    decreases |cases| - k
  {
    if k == |cases| then Success(Bare(if admissible == 0 then InvalidContract else Proved, k, admissible))
    else
      match Judge(c, cases[k])
      case Skipped => Scan(c, cases, k + 1, admissible)
      case Passed => Scan(c, cases, k + 1, admissible + 1)
      case Violated(counterexample, repairs) =>
        Success(Certificate(Rejected, k + 1, admissible + 1, Some(counterexample), repairs))
      case Raised(fault, counted) => Certify(fault, k + 1, if counted then admissible + 1 else admissible)
  }

  /** The contract is accepted by the checker and its cases fit the bound. */
  predicate Fits(c: Contract, maxCases: nat) {
    && Validate(c).None?
    && Domains(c.stateVariables, maxCases).Success?
    && Domains(c.inputVariables, maxCases).Success?
    && Size(Domains(c.stateVariables, maxCases).value) * Size(Domains(c.inputVariables, maxCases).value) <= maxCases
  }

  function StateRecords(c: Contract, maxCases: nat): seq<Record>
    requires Domains(c.stateVariables, maxCases).Success?
  {
    DomainsAre(c.stateVariables, maxCases);
    Records(Names(c.stateVariables), Domains(c.stateVariables, maxCases).value)
  }

  function InputRecords(c: Contract, maxCases: nat): seq<Record>
    requires Domains(c.inputVariables, maxCases).Success?
  {
    DomainsAre(c.inputVariables, maxCases);
    Records(Names(c.inputVariables), Domains(c.inputVariables, maxCases).value)
  }

  function AllCases(c: Contract, maxCases: nat): seq<Case>
    requires Fits(c, maxCases)
  {
    Cases(StateRecords(c, maxCases), InputRecords(c, maxCases))
  }

  /** A contract that does not get as far as the loop. */
  function EarlyStatus(fault: Fault): ProofStatus {
    match fault
    case TooLarge => Unknown
    case Unsupported => UnsupportedContract
    case Invalid => InvalidContract
    case KeyMissing => InvalidContract
  }

  /** The first exception of validation and domain construction. */
  function EarlyFault(c: Contract, maxCases: nat): Option<Fault> {
    if Validate(c).Some? then Validate(c)
    else if Domains(c.stateVariables, maxCases).Failure? then Some(Domains(c.stateVariables, maxCases).error)
    else if Domains(c.inputVariables, maxCases).Failure? then Some(Domains(c.inputVariables, maxCases).error)
    else None
  }

  /** The certificate, before and after the loops are reached. */
  function Verdict(c: Contract, maxCases: nat): Result<Certificate, Fault> {
    var fault := EarlyFault(c, maxCases);
    if fault.Some? then Success(Bare(EarlyStatus(fault.value), 0, 0))
    else if !Fits(c, maxCases) then Success(Bare(Unknown, 0, 0))
    else Scan(c, AllCases(c, maxCases), 0, 0)
  }

  /** The two nested loops of `verify`. */
  method CheckCases(c: Contract, states: seq<Record>, inputs: seq<Record>) returns (r: Result<Certificate, Fault>)
    ensures r == Scan(c, Cases(states, inputs), 0, 0)
  {
    hide Judge, Certify, Row;
    ghost var cases := Cases(states, inputs);
    var checked, admissible := 0, 0;
    var i := 0;
    while i < |states|
      invariant 0 <= i <= |states|
      invariant checked <= |cases| && cases[checked..] == Cases(states[i..], inputs)
      invariant Scan(c, cases, checked, admissible) == Scan(c, cases, 0, 0)
    {
      assert states[i..][0] == states[i] && states[i..][1..] == states[i + 1..];
      ghost var start := checked;
      RowIs(states[i], inputs);
      assert cases[start..] == Row(states[i], inputs) + Cases(states[i + 1..], inputs);
      var j := 0;
      while j < |inputs|
        invariant 0 <= j <= |inputs|
        invariant checked == start + j && start + |inputs| <= |cases|
        invariant Scan(c, cases, checked, admissible) == Scan(c, cases, 0, 0)
      {
        assert cases[checked] == cases[start..][j] == Case(states[i], inputs[j]);
        checked := checked + 1;
        match Judge(c, Case(states[i], inputs[j])) {
          case Skipped =>
          case Passed => admissible := admissible + 1;
          case Violated(counterexample, repairs) =>
            return Success(Certificate(Rejected, checked, admissible + 1, Some(counterexample), repairs));
          case Raised(raised, counted) =>
            return Certify(raised, checked, if counted then admissible + 1 else admissible);
        }
        j := j + 1;
      }
      assert cases[checked..] == cases[start..][|inputs|..];
      i := i + 1;
    }
    assert Cases(states[|states|..], inputs) == [];
    r := Success(Bare(if admissible == 0 then InvalidContract else Proved, checked, admissible));
  }

  /** `verify`; a Failure is an exception that none of its handlers catches. */
  method Verify(c: Contract, maxCases: nat) returns (certificate: Result<Certificate, Fault>)
    ensures certificate == Verdict(c, maxCases)
  {
    hide Validate, Domains, Scan, Cases, Records, Size;
    var fault := EarlyFault(c, maxCases);
    if fault.Some? {
      return Success(Bare(EarlyStatus(fault.value), 0, 0));
    }
    var stateCount := DomainSize(Domains(c.stateVariables, maxCases).value);
    var inputCount := DomainSize(Domains(c.inputVariables, maxCases).value);
    if stateCount * inputCount > maxCases {
      return Success(Bare(Unknown, 0, 0));
    }
    certificate := CheckCases(c, StateRecords(c, maxCases), InputRecords(c, maxCases));
  }

  // ── Exactness ─────────────────────────────────────────────────────

  ghost predicate Admissible(c: Contract, x: Case) {
    Holds(c.precondition, Scope(x.state, x.state, x.inputs))
  }

  ghost function AfterForward(c: Contract, x: Case): Result<Record, Fault> {
    Step(c.forward, Scope(x.state, x.state, x.inputs))
  }

  ghost function AfterCompensation(c: Contract, x: Case): Result<Record, Fault> {
    var after := AfterForward(c, x);
    if after.Failure? then after else Step(c.compensation, Scope(after.value, x.state, x.inputs))
  }

  ghost predicate MeetsPostcondition(c: Contract, x: Case) {
    AfterForward(c, x).Success? && Holds(c.postcondition, Scope(AfterForward(c, x).value, x.state, x.inputs))
  }

  ghost predicate MeetsRestoration(c: Contract, x: Case) {
    AfterCompensation(c, x).Success? && Holds(c.restoration, Scope(AfterCompensation(c, x).value, x.state, x.inputs))
  }

  ghost predicate Meets(c: Contract, x: Case) {
    MeetsPostcondition(c, x) && MeetsRestoration(c, x)
  }

  ghost predicate CaseTyped(c: Contract, x: Case) {
    Typed(x.state, TypesOf(c.stateVariables)) && Typed(x.inputs, TypesOf(c.inputVariables))
  }

  /** The counterexample shows this very case, and names the property that fails. */
  ghost predicate Shows(c: Contract, x: Case, e: Counterexample) {
    && e.originalState == x.state && e.inputs == x.inputs
    && AfterForward(c, x) == Success(e.afterForward)
    && (e.violated == PostconditionViolated ==> !MeetsPostcondition(c, x) && e.afterCompensation.None?)
    && (e.violated == RestorationViolated ==>
          MeetsPostcondition(c, x) && !MeetsRestoration(c, x) && e.afterCompensation.Some?
          && AfterCompensation(c, x) == Success(e.afterCompensation.value))
  }

  /** The repair constraints are those of the comparisons that make the violated property fail in the case shown. */
  ghost predicate Blames(c: Contract, e: Counterexample, repairs: seq<RepairConstraint>) {
    var (condition, state) :=
      if e.violated == RestorationViolated && e.afterCompensation.Some?
      then (c.restoration, e.afterCompensation.value) else (c.postcondition, e.afterForward);
    var failed := FailedComparisons(condition, Scope(state, e.originalState, e.inputs));
    failed.Success? && repairs == Repairs(failed.value)
  }

  lemma {:induction false} TypesPass(state: Record, specs: seq<VariableSpec>)
    requires forall i | 0 <= i < |specs| :: specs[i].name in state && Matches(state[specs[i].name], specs[i].valueType)
    ensures EnsureStateTypes(state, specs).None?
  {
    if specs != [] {
      TypesPass(state, specs[1..]);
    }
  }

  /** After a valid transition the type check of the result never fires. */
  lemma StepPassesCheck(t: Transition, scope: Scope, c: Contract)
    requires Validate(c).None? && (t == c.forward || t == c.compensation)
    requires ScopeTyped(scope, TypesOf(c.stateVariables), TypesOf(c.inputVariables))
    ensures Step(t, scope).Success? && Typed(Step(t, scope).value, TypesOf(c.stateVariables))
    ensures TypedStep(t, scope, c.stateVariables) == Step(t, scope)
  {
    TransitionSound(t, scope, TypesOf(c.stateVariables), TypesOf(c.inputVariables));
    TypesOfDistinct(c.stateVariables);
    TypesPass(Step(t, scope).value, c.stateVariables);
  }

  /**
   On a valid contract and a case of the declared types nothing raises, and the judgement is what
   the contract means for the case.
   */
  lemma JudgementIsExact(c: Contract, x: Case)
    requires Validate(c).None? && CaseTyped(c, x)
    ensures !Judge(c, x).Raised?
    ensures Judge(c, x).Skipped? <==> !Admissible(c, x)
    ensures Judge(c, x).Passed? <==> Admissible(c, x) && Meets(c, x)
    ensures Judge(c, x).Violated? ==>
      Shows(c, x, Judge(c, x).counterexample) && Blames(c, Judge(c, x).counterexample, Judge(c, x).repairs)
  {
    var ss, ins := TypesOf(c.stateVariables), TypesOf(c.inputVariables);
    hide Validate, TypesOf, Step, FailedComparisons, Repairs, Check;
    assert ConditionValid(c.precondition, ss, ins) && ConditionValid(c.postcondition, ss, ins)
      && ConditionValid(c.restoration, ss, ins) by { ValidParts(c); }
    var scope := Scope(x.state, x.state, x.inputs);
    ConditionSound(c.precondition, scope, ss, ins);
    StepPassesCheck(c.forward, scope, c);
    var after := Step(c.forward, scope).value;
    var forwardScope := Scope(after, x.state, x.inputs);
    ConditionSound(c.postcondition, forwardScope, ss, ins);
    ListedAreFalse(c.postcondition, forwardScope, ss, ins);
    StepPassesCheck(c.compensation, forwardScope, c);
    var back := Scope(Step(c.compensation, forwardScope).value, x.state, x.inputs);
    ConditionSound(c.restoration, back, ss, ins);
    ListedAreFalse(c.restoration, back, ss, ins);
  }

  lemma ValidParts(c: Contract)
    requires Validate(c).None?
    ensures var ss, ins := TypesOf(c.stateVariables), TypesOf(c.inputVariables);
      && ConditionValid(c.precondition, ss, ins) && ConditionValid(c.postcondition, ss, ins)
      && ConditionValid(c.restoration, ss, ins)
  {
  }

  /** How many of the first n cases are admissible. */
  ghost function AdmissibleCount(c: Contract, cases: seq<Case>, n: nat): nat
    requires n <= |cases|
  {
    if n == 0 then 0 else AdmissibleCount(c, cases, n - 1) + if Admissible(c, cases[n - 1]) then 1 else 0
  }

  ghost predicate Fails(c: Contract, x: Case) {
    Admissible(c, x) && !Meets(c, x)
  }

  /** The certificate says exactly what is the case. */
  ghost predicate Exact(c: Contract, cases: seq<Case>, certificate: Certificate) {
    && certificate.status in {Proved, Rejected, InvalidContract}
    && (certificate.status == Proved <==>
          (exists k :: 0 <= k < |cases| && Admissible(c, cases[k])) && forall k | 0 <= k < |cases| :: !Fails(c, cases[k]))
    && (certificate.status == InvalidContract <==> forall k | 0 <= k < |cases| :: !Admissible(c, cases[k]))
    && (certificate.status == Rejected <==> exists k :: 0 <= k < |cases| && Fails(c, cases[k]))
    && (if certificate.status == Rejected then FirstFailure(c, cases, certificate)
        else certificate == Bare(certificate.status, |cases|, AdmissibleCount(c, cases, |cases|)))
  }

  /** A rejection reports the first failing case, its position and the admissible cases up to it. */
  ghost predicate FirstFailure(c: Contract, cases: seq<Case>, certificate: Certificate) {
    var n := certificate.casesChecked;
    && 0 < n <= |cases|
    && Fails(c, cases[n - 1])
    && (forall k | 0 <= k < n - 1 :: !Fails(c, cases[k]))
    && certificate.admissibleCases == AdmissibleCount(c, cases, n)
    && certificate.counterexample.Some? && Shows(c, cases[n - 1], certificate.counterexample.value)
    && Blames(c, certificate.counterexample.value, certificate.repairConstraints)
  }

  lemma AdmissibleCountZero(c: Contract, cases: seq<Case>, n: nat)
    requires n <= |cases|
    ensures AdmissibleCount(c, cases, n) == 0 <==> forall k | 0 <= k < n :: !Admissible(c, cases[k])
  {
    if n > 0 {
      AdmissibleCountZero(c, cases, n - 1);
    }
  }

  lemma {:induction false} ScanIsExact(c: Contract, cases: seq<Case>, k: nat)
    requires Validate(c).None? && k <= |cases|
    requires forall i | 0 <= i < |cases| :: CaseTyped(c, cases[i])
    requires forall i | 0 <= i < k :: !Fails(c, cases[i])
    ensures var r := Scan(c, cases, k, AdmissibleCount(c, cases, k));
      r.Success? && Exact(c, cases, r.value)
    decreases |cases| - k
  {
    hide Validate, Judge, Admissible, Meets, Shows, CaseTyped, Blames;
    if k == |cases| {
      AdmissibleCountZero(c, cases, k);
    } else {
      JudgementIsExact(c, cases[k]);
      if !Judge(c, cases[k]).Violated? {
        ScanIsExact(c, cases, k + 1);
      }
    }
  }

  lemma PickTyped(specs: seq<VariableSpec>, maxCases: nat, domains: seq<seq<Scalar>>, choice: seq<nat>)
    requires DistinctNames(specs) && |domains| == |specs| && IsChoice(domains, choice)
    requires forall i | 0 <= i < |specs| :: Domain(specs[i], maxCases) == Success(domains[i])
    ensures Typed(Pick(Names(specs), domains, choice), TypesOf(specs))
  {
    hide TypesOf, Pick, Domain, Matches;
    var names := Names(specs);
    TypesOfDistinct(specs);
    PickIsInDomain(names, domains, choice);
    forall x | x in TypesOf(specs)
      ensures x in Pick(names, domains, choice) && Matches(Pick(names, domains, choice)[x], TypesOf(specs)[x])
    {
      var i :| 0 <= i < |specs| && specs[i].name == x;
      DomainMatches(specs[i], maxCases, domains[i]);
      assert names[i] == x;
    }
  }

  lemma DomainMatches(spec: VariableSpec, maxCases: nat, values: seq<Scalar>)
    requires Domain(spec, maxCases) == Success(values)
    ensures forall k | 0 <= k < |values| :: Matches(values[k], spec.valueType)
  {
  }

  /** Every record of the enumeration has a value of the declared type for each variable. */
  lemma RecordsTyped(specs: seq<VariableSpec>, maxCases: nat)
    requires DistinctNames(specs) && Domains(specs, maxCases).Success?
    ensures |Names(specs)| == |Domains(specs, maxCases).value|
    ensures forall k | 0 <= k < |Records(Names(specs), Domains(specs, maxCases).value)| ::
      Typed(Records(Names(specs), Domains(specs, maxCases).value)[k], TypesOf(specs))
  {
    DomainsAre(specs, maxCases);
    var names, domains := Names(specs), Domains(specs, maxCases).value;
    hide Domains, Domain, Records, Typed, TypesOf, Size, Pick, Position;
    RecordsLength(names, domains);
    forall k | 0 <= k < |Records(names, domains)|
      ensures Typed(Records(names, domains)[k], TypesOf(specs))
    {
      var choice := ChoiceAt(domains, k);
      EveryChoiceIsEnumerated(names, domains, choice);
      PickTyped(specs, maxCases, domains, choice);
    }
  }

  lemma {:induction false} CasesTyped(c: Contract, states: seq<Record>, inputs: seq<Record>)
    requires forall i | 0 <= i < |states| :: Typed(states[i], TypesOf(c.stateVariables))
    requires forall j | 0 <= j < |inputs| :: Typed(inputs[j], TypesOf(c.inputVariables))
    ensures forall k | 0 <= k < |Cases(states, inputs)| :: CaseTyped(c, Cases(states, inputs)[k])
  {
    if states != [] {
      CasesTyped(c, states[1..], inputs);
    }
  }

  /**
   The verdict is exact. For a contract that passes validation and fits the bound, no evaluation
   raises; PROVED holds if and only if some case is admissible and every admissible case meets
   postcondition and restoration; a rejection carries the first failing case in the order of
   enumeration, its position, and the number of admissible cases up to it.
   */
  lemma VerdictIsExact(c: Contract, maxCases: nat)
    requires Fits(c, maxCases)
    ensures var r := Scan(c, AllCases(c, maxCases), 0, 0);
      r.Success? && Exact(c, AllCases(c, maxCases), r.value)
  {
    hide Exact;
    assert DistinctNames(c.stateVariables) && DistinctNames(c.inputVariables);
    RecordsTyped(c.stateVariables, maxCases);
    RecordsTyped(c.inputVariables, maxCases);
    CasesTyped(c, StateRecords(c, maxCases), InputRecords(c, maxCases));
    ScanIsExact(c, AllCases(c, maxCases), 0);
  }

  /** Every pair of a state record and an input record is a case, at the position of the nested loops. */
  lemma {:induction false} CaseAt(states: seq<Record>, inputs: seq<Record>, i: nat, j: nat)
    requires i < |states| && j < |inputs|
    ensures |Cases(states, inputs)| == |states| * |inputs|
    ensures i * |inputs| + j < |states| * |inputs|
    ensures Cases(states, inputs)[i * |inputs| + j] == Case(states[i], inputs[j])
  {
    CasesLength(states, inputs);
    RowBound(i, |states|, |inputs|, j);
    if i > 0 {
      CaseAt(states[1..], inputs, i - 1, j);
      assert i * |inputs| + j == |inputs| + ((i - 1) * |inputs| + j);
    }
  }

  lemma {:induction false} CasesLength(states: seq<Record>, inputs: seq<Record>)
    ensures |Cases(states, inputs)| == |states| * |inputs|
  {
    if states != [] {
      CasesLength(states[1..], inputs);
      assert |states| * |inputs| == |inputs| + |states[1..]| * |inputs|;
    }
  }
}
