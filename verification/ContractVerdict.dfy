/**
 The verdict in terms of the contract alone: which values its declarations allow, and what its
 conditions and transitions mean for them.
 */
module ContractVerdict {
  import opened Prelude
  import opened ContractDsl
  import opened ContractTyping
  import opened ContractCases
  import opened ContractVerifier
  import opened ContractMeaning

  /** An allowed value for every declared variable, and no others. */
  ghost predicate AllowedCase(c: Contract, x: Case) {
    && InDomain(x.state, c.stateVariables) && x.state.Keys == NameSet(c.stateVariables)
    && InDomain(x.inputs, c.inputVariables) && x.inputs.Keys == NameSet(c.inputVariables)
  }

  /** The declaration offers finitely many values, at least one and at most the bound, and of its type. */
  ghost predicate Offers(spec: VariableSpec, maxCases: nat) {
    Count(spec).Some? && 0 < Count(spec).value <= maxCases && ListedMatch(spec)
  }

  function Variables(c: Contract): seq<VariableSpec> {
    c.stateVariables + c.inputVariables
  }

  ghost predicate Bounded(c: Contract, maxCases: nat) {
    forall i | 0 <= i < |Variables(c)| :: Offers(Variables(c)[i], maxCases)
  }

  /** The k-th variable is the first one that does not. */
  ghost predicate Lacks(c: Contract, maxCases: nat, k: nat) {
    k < |Variables(c)| && !Offers(Variables(c)[k], maxCases) && forall i | 0 <= i < k :: Offers(Variables(c)[i], maxCases)
  }

  /** The number of cases. */
  function Cost(c: Contract): int {
    Product(c.stateVariables) * Product(c.inputVariables)
  }

  // ── Before the loops ──────────────────────────────────────────────

  lemma {:induction false} DomainsExist(specs: seq<VariableSpec>, maxCases: nat)
    ensures Domains(specs, maxCases).Success? <==> forall i | 0 <= i < |specs| :: Offers(specs[i], maxCases)
  {
    hide Domain, Count, ListedMatch;
    if specs != [] {
      DomainTable(specs[0], maxCases);
      DomainsExist(specs[1..], maxCases);
      assert forall i | 1 <= i < |specs| :: specs[i] == specs[1..][i - 1];
      assert forall i | 0 <= i < |specs[1..]| :: specs[1..][i] == specs[i + 1];
    }
  }

  lemma BoundedIs(c: Contract, maxCases: nat)
    ensures Bounded(c, maxCases) <==>
      Domains(c.stateVariables, maxCases).Success? && Domains(c.inputVariables, maxCases).Success?
  {
    hide Domains, Offers;
    var s, all := c.stateVariables, Variables(c);
    DomainsExist(s, maxCases);
    DomainsExist(c.inputVariables, maxCases);
    assert forall i | 0 <= i < |s| :: all[i] == s[i];
    assert forall i | 0 <= i < |c.inputVariables| :: c.inputVariables[i] == all[|s| + i];
  }

  /** The loops are reached by the contracts that make sense, are bounded, and have few enough cases. */
  lemma FitsIs(c: Contract, maxCases: nat)
    ensures Fits(c, maxCases) <==> WellFormed(c) && Bounded(c, maxCases) && Cost(c) <= maxCases
  {
    hide Validate, Domains, WellFormed, Bounded, Product, Size;
    ValidationIsExact(c);
    BoundedIs(c, maxCases);
    if Bounded(c, maxCases) {
      SizeIsProduct(c.stateVariables, maxCases);
      SizeIsProduct(c.inputVariables, maxCases);
    }
  }

  /** A contract that is not bounded has a first variable at fault. */
  lemma {:induction false} SomeoneLacks(c: Contract, maxCases: nat, n: nat) returns (k: nat)
    requires n <= |Variables(c)| && forall i | 0 <= i < n :: Offers(Variables(c)[i], maxCases)
    requires !Bounded(c, maxCases)
    ensures Lacks(c, maxCases, k)
    decreases |Variables(c)| - n
  {
    hide Offers;
    if Offers(Variables(c)[n], maxCases) {
      k := SomeoneLacks(c, maxCases, n + 1);
    } else {
      k := n;
    }
  }

  function FaultOf(spec: VariableSpec, maxCases: nat): Fault {
    if Count(spec).None? then Unsupported else if Count(spec).value > maxCases then TooLarge else Invalid
  }

  /** The first variable at fault decides what is raised. */
  lemma LackIsRaised(c: Contract, maxCases: nat, k: nat)
    requires Validate(c).None? && Lacks(c, maxCases, k)
    ensures EarlyFault(c, maxCases) == Some(FaultOf(Variables(c)[k], maxCases))
  {
    hide Validate, Domain, Domains, Count, ListedMatch;
    var s, i, all := c.stateVariables, c.inputVariables, Variables(c);
    DomainTable(all[k], maxCases);
    assert forall n | 0 <= n < |s| :: all[n] == s[n];
    assert forall n | 0 <= n < |i| :: i[n] == all[|s| + n];
    DomainsExist(s, maxCases);
    DomainsExist(i, maxCases);
    assert FirstOf(s, maxCases, k) || FirstOf(i, maxCases, k - |s|);
    if k < |s| {
      assert !Offers(s[k], maxCases);
      var j := DomainsFail(s, maxCases);
      SameFirst(s, maxCases, k, j, Domains(s, maxCases).error);
    } else {
      assert !Offers(i[k - |s|], maxCases);
      var j := DomainsFail(i, maxCases);
      SameFirst(i, maxCases, k - |s|, j, Domains(i, maxCases).error);
    }
  }

  ghost predicate FirstOf(specs: seq<VariableSpec>, maxCases: nat, k: int) {
    0 <= k < |specs| && !Offers(specs[k], maxCases) && forall n | 0 <= n < k :: Offers(specs[n], maxCases)
  }

  lemma SameFirst(specs: seq<VariableSpec>, maxCases: nat, k: nat, j: nat, e: Fault)
    requires FirstOf(specs, maxCases, k) && FirstError(specs, maxCases, j, e)
    ensures j == k
  {
    hide Domain, Count, ListedMatch;
    DomainTable(specs[j], maxCases);
    DomainTable(specs[k], maxCases);
  }

  /**
   What is not enumerated: a contract that makes no sense is INVALID, unless it declares irreversible
   effects, which are UNSUPPORTED; of one that does, the first variable without a finite domain
   makes it UNSUPPORTED, one with too many values UNKNOWN, and an empty or ill-typed domain INVALID;
   too many cases in all make it UNKNOWN. Nothing is counted then.
   */
  lemma RefusalTable(c: Contract, maxCases: nat, k: nat)
    ensures !WellFormed(c) ==>
      var status := if Declared(c) && c.irreversibleEffects != [] then UnsupportedContract else InvalidContract;
      Verdict(c, maxCases) == Success(Bare(status, 0, 0))
    ensures WellFormed(c) && Lacks(c, maxCases, k) ==>
      var n := Count(Variables(c)[k]);
      var status := if n.None? then UnsupportedContract else if n.value > maxCases then Unknown else InvalidContract;
      Verdict(c, maxCases) == Success(Bare(status, 0, 0))
    ensures WellFormed(c) && Bounded(c, maxCases) && Cost(c) > maxCases ==>
      Verdict(c, maxCases) == Success(Bare(Unknown, 0, 0))
  {
    hide Validate, Domains, WellFormed, Bounded, Lacks, Product, Size, Scan, AllCases, Declared, Fits;
    ValidationIsExact(c);
    BoundedIs(c, maxCases);
    FitsIs(c, maxCases);
    if WellFormed(c) && Lacks(c, maxCases, k) {
      LackIsRaised(c, maxCases, k);
    }
  }

  // ── The cases ─────────────────────────────────────────────────────

  lemma CasesAreAllowed(c: Contract, maxCases: nat)
    requires Fits(c, maxCases)
    ensures DistinctNames(c.stateVariables) && DistinctNames(c.inputVariables)
    ensures |StateRecords(c, maxCases)| == Product(c.stateVariables)
    ensures |InputRecords(c, maxCases)| == Product(c.inputVariables)
    ensures |AllCases(c, maxCases)| == Cost(c)
  {
    hide Domains, Records, Cases, Product, Size;
    SizeIsProduct(c.stateVariables, maxCases);
    SizeIsProduct(c.inputVariables, maxCases);
    DomainsAre(c.stateVariables, maxCases);
    DomainsAre(c.inputVariables, maxCases);
    RecordsLength(Names(c.stateVariables), Domains(c.stateVariables, maxCases).value);
    RecordsLength(Names(c.inputVariables), Domains(c.inputVariables, maxCases).value);
    CasesLength(StateRecords(c, maxCases), InputRecords(c, maxCases));
  }

  lemma {:induction false} CasesAreThePairs(states: seq<Record>, inputs: seq<Record>, x: Case)
    ensures x in Cases(states, inputs) <==> x.state in states && x.inputs in inputs
  {
    if states != [] {
      CasesAreThePairs(states[1..], inputs, x);
      RowIs(states[0], inputs);
      var row := Row(states[0], inputs);
      if x in row {
        var j :| 0 <= j < |row| && row[j] == x;
      }
      if x.state == states[0] && x.inputs in inputs {
        var j :| 0 <= j < |inputs| && inputs[j] == x.inputs;
        assert row[j] == x;
      }
    }
  }

  /** The cases gone through are exactly those the declarations allow. */
  lemma CasesAreTheAllowed(c: Contract, maxCases: nat, x: Case)
    requires Fits(c, maxCases)
    ensures x in AllCases(c, maxCases) <==> AllowedCase(c, x)
  {
    CasesAreAllowed(c, maxCases);
    hide Validate, Domains, Records, Cases, Size, InDomain, DistinctNames, Names;
    CasesAreThePairs(StateRecords(c, maxCases), InputRecords(c, maxCases), x);
    RecordsAreTheAllowed(c.stateVariables, maxCases, x.state);
    RecordsAreTheAllowed(c.inputVariables, maxCases, x.inputs);
  }

  /** A case that is judged fails to deliver what it should. */
  ghost predicate Breaks(c: Contract, x: Case) {
    Starts(c, x) && !Delivers(c, x)
  }

  lemma CasesMean(c: Contract, maxCases: nat)
    requires Fits(c, maxCases)
    ensures forall x | AllowedCase(c, x) ::
      (Admissible(c, x) <==> Starts(c, x)) && (Meets(c, x) <==> Delivers(c, x)) && (Fails(c, x) <==> Breaks(c, x))
    ensures forall k | 0 <= k < |AllCases(c, maxCases)| :: AllowedCase(c, AllCases(c, maxCases)[k])
    ensures forall x | AllowedCase(c, x) :: exists k :: 0 <= k < |AllCases(c, maxCases)| && AllCases(c, maxCases)[k] == x
  {
    hide Fits, AllCases, AllowedCase, Admissible, Meets, Starts, Delivers, CaseTyped;
    var cases := AllCases(c, maxCases);
    forall x
      ensures x in cases <==> AllowedCase(c, x)
    {
      CasesAreTheAllowed(c, maxCases, x);
    }
    forall x | AllowedCase(c, x)
      ensures (Admissible(c, x) <==> Starts(c, x)) && (Meets(c, x) <==> Delivers(c, x))
    {
      CaseOfFits(c, maxCases, x);
      MeaningOfCase(c, x);
    }
  }

  lemma CaseOfFits(c: Contract, maxCases: nat, x: Case)
    requires Fits(c, maxCases) && x in AllCases(c, maxCases)
    ensures Validate(c).None? && CaseTyped(c, x)
  {
    hide Validate, Records, Cases, Domains, Size, Typed, DistinctNames;
    ValidationNames(c);
    RecordsTyped(c.stateVariables, maxCases);
    RecordsTyped(c.inputVariables, maxCases);
    CasesTyped(c, StateRecords(c, maxCases), InputRecords(c, maxCases));
  }

  lemma ValidationNames(c: Contract)
    ensures Validate(c).None? ==> DistinctNames(c.stateVariables) && DistinctNames(c.inputVariables)
  {
  }

  // ── The verdict ───────────────────────────────────────────────────

  /** The counterexample is an allowed case that starts, with the states it leads to, and names what fails first. */
  ghost predicate Refutes(c: Contract, e: Counterexample) {
    var x := Case(e.originalState, e.inputs);
    var after := Scope(e.afterForward, x.state, x.inputs);
    && AllowedCase(c, x) && Starts(c, x)
    && Moves(c.forward, Scope(x.state, x.state, x.inputs), e.afterForward)
    && (True(c.postcondition, after) <==> e.violated == RestorationViolated)
    && (e.afterCompensation.Some? <==> e.violated == RestorationViolated)
    && (e.violated == RestorationViolated ==>
          && Moves(c.compensation, after, e.afterCompensation.value)
          && !True(c.restoration, Scope(e.afterCompensation.value, x.state, x.inputs)))
  }

  /**
   What is enumerated: the contract is PROVED if and only if some allowed case meets the precondition
   and each one that does meets the postcondition after the forward step and the restoration after
   the compensation; it is REJECTED if and only if some allowed case that starts does not, one such
   being shown; it is INVALID if and only if no allowed case starts. Nothing else can come out.
   */
  lemma VerdictTable(c: Contract, maxCases: nat)
    requires WellFormed(c) && Bounded(c, maxCases) && Cost(c) <= maxCases
    ensures Verdict(c, maxCases).Success?
    ensures var v := Verdict(c, maxCases).value;
      && (v.status == Proved <==>
            (exists x :: AllowedCase(c, x) && Starts(c, x)) && forall x | AllowedCase(c, x) && Starts(c, x) :: Delivers(c, x))
      && (v.status == Rejected <==> exists x :: AllowedCase(c, x) && Breaks(c, x))
      && (v.status == InvalidContract <==> forall x | AllowedCase(c, x) :: !Starts(c, x))
      && v.status in {Proved, Rejected, InvalidContract}
      && (v.status == Rejected ==> v.counterexample.Some? && Refutes(c, v.counterexample.value))
      && (v.status != Rejected ==> v.casesChecked == Cost(c) && v.counterexample.None? && v.repairConstraints == [])
  {
    hide WellFormed, Bounded, Fits, AllCases, Scan, AllowedCase, Admissible, Meets, Starts, Delivers, Product, Refutes,
         FirstFailure;
    FitsIs(c, maxCases);
    VerdictIsExact(c, maxCases);
    CasesMean(c, maxCases);
    CasesAreAllowed(c, maxCases);
    assert EarlyFault(c, maxCases).None? by { FitsIsReached(c, maxCases); }
    var v := Verdict(c, maxCases).value;
    if v.status == Rejected {
      FailureRefutes(c, maxCases, v);
    }
  }

  lemma FitsIsReached(c: Contract, maxCases: nat)
    requires Fits(c, maxCases)
    ensures EarlyFault(c, maxCases).None?
  {
    hide Validate, Domains, Size;
  }

  lemma FailureRefutes(c: Contract, maxCases: nat, v: Certificate)
    requires Fits(c, maxCases) && FirstFailure(c, AllCases(c, maxCases), v)
    ensures v.counterexample.Some? && Refutes(c, v.counterexample.value)
  {
    hide Fits, AllCases, AllowedCase, Step, True, Moves, Validate, CaseTyped, Check;
    CasesMean(c, maxCases);
    var x, e := AllCases(c, maxCases)[v.casesChecked - 1], v.counterexample.value;
    CaseOfFits(c, maxCases, x);
    CounterexampleMeans(c, x, e);
  }

  lemma CounterexampleMeans(c: Contract, x: Case, e: Counterexample)
    requires Validate(c).None? && CaseTyped(c, x) && Admissible(c, x) && AllowedCase(c, x) && Shows(c, x, e)
    ensures Refutes(c, e)
  {
    var ss, ins := TypesOf(c.stateVariables), TypesOf(c.inputVariables);
    hide Validate, TypesOf, Step, Check, True, Moves, ConditionValid, TargetsValid, AssignmentsValid, Typed, AllowedCase;
    ValidParts(c);
    ValidTransitions(c);
    var scope := Scope(x.state, x.state, x.inputs);
    MeaningOfCondition(c.precondition, scope, ss, ins);
    var after := MeaningOfStep(c.forward, scope, ss, ins);
    var forwardScope := Scope(after, x.state, x.inputs);
    MeaningOfCondition(c.postcondition, forwardScope, ss, ins);
    var back := MeaningOfStep(c.compensation, forwardScope, ss, ins);
    MeaningOfCondition(c.restoration, Scope(back, x.state, x.inputs), ss, ins);
  }
}
