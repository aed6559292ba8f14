/** The bounded domains of a contract and the enumeration of their Cartesian product. */
module ContractCases {
  import opened Prelude
  import opened ContractDsl
  import opened ContractTyping

  // ── Domains ───────────────────────────────────────────────────────

  function Range(lo: int, hi: int): seq<Scalar> {
    seq(if lo <= hi then hi - lo + 1 else 0, k => IntValue(lo + k))
  }

  /** The values a declaration offers, before they are examined. */
  function Offered(spec: VariableSpec, maxPoints: nat): Result<seq<Scalar>, Fault> {
    if spec.allowedValues != [] then Success(spec.allowedValues)
    else if spec.valueType == BooleanType then Success([BoolValue(false), BoolValue(true)])
    else if spec.valueType == IntegerType && spec.bounds.Some? then
      var (lo, hi) := spec.bounds.value;
      if hi - lo + 1 > maxPoints then Failure(TooLarge) else Success(Range(lo, hi))
    else Failure(Unsupported)
  }

  /** `_domain`. */
  function Domain(spec: VariableSpec, maxPoints: nat): Result<seq<Scalar>, Fault> {
    var values := Offered(spec, maxPoints);
    if values.Failure? then values
    else if values.value == [] then Failure(Invalid)
    else if |values.value| > maxPoints then Failure(TooLarge)
    else if exists k | 0 <= k < |values.value| :: !Matches(values.value[k], spec.valueType) then Failure(Invalid)
    else values
  }

  /** The declaration lets the variable have this value. */
  predicate Allows(spec: VariableSpec, v: Scalar) {
    if spec.allowedValues != [] then v in spec.allowedValues
    else match spec.valueType
      case BooleanType => v.BoolValue?
      case IntegerType => v.IntValue? && spec.bounds.Some? && spec.bounds.value.0 <= v.i <= spec.bounds.value.1
      case RealType => false
      case StringType => false
  }

  /** How many values that are, a value listed twice being counted twice; None without a finite choice. */
  function Count(spec: VariableSpec): Option<int> {
    if spec.allowedValues != [] then Some(|spec.allowedValues|)
    else match spec.valueType
      case BooleanType => Some(2)
      case IntegerType => if spec.bounds.None? then None else Some(spec.bounds.value.1 - spec.bounds.value.0 + 1)
      case RealType => None
      case StringType => None
  }

  /** Of an unlisted domain: false before true, and integers by size. */
  ghost predicate Ascends(v: Scalar, w: Scalar) {
    (v.BoolValue? && w.BoolValue? && !v.b && w.b) || (v.IntValue? && w.IntValue? && v.i < w.i)
  }

  /** No value listed is of another type. */
  predicate ListedMatch(spec: VariableSpec) {
    forall k | 0 <= k < |spec.allowedValues| :: Matches(spec.allowedValues[k], spec.valueType)
  }

  /**
   A declaration has a domain if and only if it offers at least one value, at most the bound, and
   lists none of another type; otherwise the error says which of these it was. A domain holds the
   allowed values and no others: a listed one in the order of the list, another one ascending, so
   that no value comes twice.
   */
  lemma DomainTable(spec: VariableSpec, maxPoints: nat)
    ensures var d, n := Domain(spec, maxPoints), Count(spec);
      && (d.Success? <==> n.Some? && 0 < n.value <= maxPoints && ListedMatch(spec))
      && (d == Failure(Unsupported) <==> n.None?)
      && (d == Failure(TooLarge) <==> n.Some? && n.value > maxPoints)
      && (d == Failure(Invalid) <==> n.Some? && n.value <= maxPoints && (n.value <= 0 || !ListedMatch(spec)))
      && (d.Success? ==>
            && |d.value| == n.value
            && (forall v :: v in d.value <==> Allows(spec, v))
            && (spec.allowedValues != [] ==> d.value == spec.allowedValues)
            && (spec.allowedValues == [] ==> forall i, j | 0 <= i < j < |d.value| :: Ascends(d.value[i], d.value[j])))
  {
    var d := Domain(spec, maxPoints);
    if spec.allowedValues == [] && spec.valueType == IntegerType && spec.bounds.Some? {
      var (lo, hi) := spec.bounds.value;
      RangeIs(lo, hi);
    } else if spec.allowedValues == [] && spec.valueType == BooleanType {
      assert [BoolValue(false), BoolValue(true)][0] == BoolValue(false);
      assert [BoolValue(false), BoolValue(true)][1] == BoolValue(true);
    }
  }

  lemma RangeIs(lo: int, hi: int)
    ensures |Range(lo, hi)| == if lo <= hi then hi - lo + 1 else 0
    ensures forall k | 0 <= k < |Range(lo, hi)| :: Range(lo, hi)[k] == IntValue(lo + k)
    ensures forall v :: v in Range(lo, hi) <==> v.IntValue? && lo <= v.i <= hi
  {
    forall v
      ensures v in Range(lo, hi) <==> v.IntValue? && lo <= v.i <= hi
    {
      if v.IntValue? && lo <= v.i <= hi {
        assert Range(lo, hi)[v.i - lo] == v;
      }
    }
  }

  /** `_domains`, in the order of the declarations. */
  function Domains(specs: seq<VariableSpec>, maxPoints: nat): Result<seq<seq<Scalar>>, Fault> {
    if specs == [] then Success([]) else
    var head := Domain(specs[0], maxPoints);
    if head.Failure? then Failure(head.error) else
    var tail := Domains(specs[1..], maxPoints);
    if tail.Failure? then tail else Success([head.value] + tail.value)
  }

  /** The domains, one per variable, in order. */
  lemma {:induction false} DomainsAre(specs: seq<VariableSpec>, maxPoints: nat)
    requires Domains(specs, maxPoints).Success?
    ensures var d := Domains(specs, maxPoints).value;
      && |d| == |specs|
      && forall i | 0 <= i < |d| :: Domain(specs[i], maxPoints) == Success(d[i])
  {
    if specs != [] {
      DomainsAre(specs[1..], maxPoints);
      assert forall i | 1 <= i < |specs| :: specs[i] == specs[1..][i - 1];
    }
  }

  /** Without them, the error is the one of the first variable that has no domain. */
  lemma {:induction false} DomainsFail(specs: seq<VariableSpec>, maxPoints: nat) returns (k: nat)
    requires Domains(specs, maxPoints).Failure?
    ensures FirstError(specs, maxPoints, k, Domains(specs, maxPoints).error)
  {
    hide Domain;
    k := 0;
    if Domain(specs[0], maxPoints).Success? {
      k := DomainsFail(specs[1..], maxPoints);
      assert forall i | 1 <= i < |specs| :: specs[i] == specs[1..][i - 1];
      k := k + 1;
    }
  }

  ghost predicate FirstError(specs: seq<VariableSpec>, maxPoints: nat, k: nat, e: Fault) {
    && k < |specs| && Domain(specs[k], maxPoints) == Failure(e)
    && forall i | 0 <= i < k :: Domain(specs[i], maxPoints).Success?
  }

  // ── Records ───────────────────────────────────────────────────────

  function Names(specs: seq<VariableSpec>): seq<string> {
    seq(|specs|, i requires 0 <= i < |specs| => specs[i].name)
  }

  /** The number of records. */
  function Size(domains: seq<seq<Scalar>>): nat {
    if domains == [] then 1 else |domains[0]| * Size(domains[1..])
  }

  function WithValue(name: string, v: Scalar, records: seq<Record>): seq<Record> {
    seq(|records|, i requires 0 <= i < |records| => records[i][name := v])
  }

  function Rows(name: string, values: seq<Scalar>, records: seq<Record>): seq<Record> {
    if values == [] then [] else WithValue(name, values[0], records) + Rows(name, values[1..], records)
  }

  /** `_records`: every choice of one value per variable, the last variable varying fastest. */
  function Records(names: seq<string>, domains: seq<seq<Scalar>>): seq<Record>
    requires |names| == |domains|
  {
    if domains == [] then [map[]] else Rows(names[0], domains[0], Records(names[1..], domains[1..]))
  }

  /** `_domain_size`. */
  method DomainSize(domains: seq<seq<Scalar>>) returns (result: nat)
    ensures result == Size(domains)
  {
    result := 1;
    var i := 0;
    while i < |domains|
      invariant 0 <= i <= |domains|
      invariant result * Size(domains[i..]) == Size(domains)
    {
      assert domains[i..][1..] == domains[i + 1..];
      SizeStep(result, |domains[i]|, Size(domains[i + 1..]));
      result := result * |domains[i]|;
      i := i + 1;
    }
  }

  lemma SizeStep(a: nat, b: nat, c: nat)
    ensures a * (b * c) == (a * b) * c
  {
  }

  // ── The enumeration is the Cartesian product, each choice once ────

  /** One position in each domain. */
  ghost predicate IsChoice(domains: seq<seq<Scalar>>, choice: seq<nat>) {
    |choice| == |domains| && forall i | 0 <= i < |domains| :: choice[i] < |domains[i]|
  }

  /** The record a choice stands for. */
  ghost function Pick(names: seq<string>, domains: seq<seq<Scalar>>, choice: seq<nat>): Record
    requires |names| == |domains| && IsChoice(domains, choice)
  {
    if domains == [] then map[]
    else Pick(names[1..], domains[1..], choice[1..])[names[0] := domains[0][choice[0]]]
  }

  /** The position of a choice in lexicographic order. */
  ghost function Position(domains: seq<seq<Scalar>>, choice: seq<nat>): nat
    requires IsChoice(domains, choice)
  {
    if domains == [] then 0 else choice[0] * Size(domains[1..]) + Position(domains[1..], choice[1..])
  }

  ghost predicate Before(a: seq<nat>, b: seq<nat>) {
    a != [] && b != [] && (a[0] < b[0] || (a[0] == b[0] && Before(a[1..], b[1..])))
  }

  lemma RowBound(x: nat, n: nat, s: nat, p: nat)
    requires x < n && p < s
    ensures x * s + p < n * s
  {
    assert x * s + s == (x + 1) * s <= n * s;
  }

  lemma {:induction false} PositionBound(domains: seq<seq<Scalar>>, choice: seq<nat>)
    requires IsChoice(domains, choice)
    ensures Position(domains, choice) < Size(domains)
  {
    if domains != [] {
      PositionBound(domains[1..], choice[1..]);
      RowBound(choice[0], |domains[0]|, Size(domains[1..]), Position(domains[1..], choice[1..]));
    }
  }

  lemma {:induction false} RowsAt(name: string, values: seq<Scalar>, records: seq<Record>, x: nat, p: nat)
    requires x < |values| && p < |records|
    ensures |Rows(name, values, records)| == |values| * |records|
    ensures x * |records| + p < |values| * |records|
    ensures Rows(name, values, records)[x * |records| + p] == records[p][name := values[x]]
  {
    RowsLength(name, values, records);
    RowBound(x, |values|, |records|, p);
    if x > 0 {
      RowsAt(name, values[1..], records, x - 1, p);
      assert x * |records| + p == |records| + ((x - 1) * |records| + p);
    }
  }

  lemma {:induction false} RowsLength(name: string, values: seq<Scalar>, records: seq<Record>)
    ensures |Rows(name, values, records)| == |values| * |records|
  {
    if values != [] {
      RowsLength(name, values[1..], records);
      assert |values| * |records| == |records| + |values[1..]| * |records|;
    }
  }

  lemma {:induction false} RecordsLength(names: seq<string>, domains: seq<seq<Scalar>>)
    requires |names| == |domains|
    ensures |Records(names, domains)| == Size(domains)
  {
    if domains != [] {
      RecordsLength(names[1..], domains[1..]);
      RowsLength(names[0], domains[0], Records(names[1..], domains[1..]));
    }
  }

  /** Every choice is enumerated, at its lexicographic position. */
  lemma {:induction false} EveryChoiceIsEnumerated(names: seq<string>, domains: seq<seq<Scalar>>, choice: seq<nat>)
    requires |names| == |domains| && IsChoice(domains, choice)
    ensures Position(domains, choice) < |Records(names, domains)|
    ensures Records(names, domains)[Position(domains, choice)] == Pick(names, domains, choice)
  {
    if domains != [] {
      EveryChoiceIsEnumerated(names[1..], domains[1..], choice[1..]);
      RecordsLength(names[1..], domains[1..]);
      RowsAt(names[0], domains[0], Records(names[1..], domains[1..]), choice[0], Position(domains[1..], choice[1..]));
    }
  }

  /** The choice at a position. */
  ghost function ChoiceAt(domains: seq<seq<Scalar>>, k: nat): (choice: seq<nat>)
    requires k < Size(domains)
    ensures IsChoice(domains, choice) && Position(domains, choice) == k
  {
    if domains == [] then []
    else
      var s := Size(domains[1..]);
      assert s > 0;
      DivBound(k, |domains[0]|, s);
      var rest := ChoiceAt(domains[1..], k % s);
      PositionOf(domains, k / s, rest);
      [k / s] + rest
  }

  lemma PositionOf(domains: seq<seq<Scalar>>, first: nat, rest: seq<nat>)
    requires domains != [] && first < |domains[0]| && IsChoice(domains[1..], rest)
    ensures IsChoice(domains, [first] + rest)
    ensures Position(domains, [first] + rest) == first * Size(domains[1..]) + Position(domains[1..], rest)
  {
    assert ([first] + rest)[1..] == rest;
  }

  lemma DivBound(k: nat, n: nat, s: nat)
    requires s > 0 && k < n * s
    ensures k / s < n && (k / s) * s + k % s == k
  {
    ProductMonotone(k / s, n, s);
  }

  lemma ProductMonotone(x: nat, n: nat, s: nat)
    ensures x >= n ==> x * s >= n * s
  {
  }

  /** The enumeration is in lexicographic order, so no choice comes twice. */
  lemma {:induction false} EnumerationIsLexicographic(domains: seq<seq<Scalar>>, a: seq<nat>, b: seq<nat>)
    requires IsChoice(domains, a) && IsChoice(domains, b)
    ensures Before(a, b) <==> Position(domains, a) < Position(domains, b)
    ensures Position(domains, a) == Position(domains, b) ==> a == b
  {
    if domains != [] {
      var rest, s := domains[1..], Size(domains[1..]);
      EnumerationIsLexicographic(rest, a[1..], b[1..]);
      PositionBound(rest, a[1..]);
      PositionBound(rest, b[1..]);
      if a[0] < b[0] {
        RowBound(a[0], b[0], s, Position(rest, a[1..]));
      } else if b[0] < a[0] {
        RowBound(b[0], a[0], s, Position(rest, b[1..]));
      } else {
        assert a == [a[0]] + a[1..] && b == [b[0]] + b[1..];
      }
    }
  }

  /** A record gives each variable a value of its domain, and knows no other variable. */
  lemma {:induction false} PickIsInDomain(names: seq<string>, domains: seq<seq<Scalar>>, choice: seq<nat>)
    requires |names| == |domains| && IsChoice(domains, choice)
    requires forall i, j | 0 <= i < j < |names| :: names[i] != names[j]
    ensures var r := Pick(names, domains, choice);
      && (forall i | 0 <= i < |names| :: names[i] in r && r[names[i]] == domains[i][choice[i]])
      && (forall x :: x in r ==> x in names)
  {
    if domains != [] {
      PickIsInDomain(names[1..], domains[1..], choice[1..]);
      assert forall i | 1 <= i < |names| :: names[i] == names[1..][i - 1] && domains[i] == domains[1..][i - 1];
    }
  }

  // ── The enumerated records are those the declarations allow ───────

  /** Each declared variable has a value its declaration allows. */
  ghost predicate InDomain(r: Record, specs: seq<VariableSpec>) {
    forall i | 0 <= i < |specs| :: specs[i].name in r && Allows(specs[i], r[specs[i].name])
  }

  ghost function NameSet(specs: seq<VariableSpec>): set<string> {
    set i | 0 <= i < |specs| :: specs[i].name
  }

  ghost function Restrict(r: Record, names: set<string>): Record {
    map x | x in r && x in names :: r[x]
  }

  lemma NamesAreTypes(specs: seq<VariableSpec>)
    requires DistinctNames(specs)
    ensures TypesOf(specs).Keys == NameSet(specs)
  {
    TypesOfDistinct(specs);
  }

  /** A state the declarations allow is one of the enumerated records, once restricted to the declared variables. */
  lemma {:induction false} InDomainIsPicked(specs: seq<VariableSpec>, maxCases: nat, r: Record) returns (choice: seq<nat>)
    requires DistinctNames(specs) && Domains(specs, maxCases).Success? && InDomain(r, specs)
    ensures var domains := Domains(specs, maxCases).value;
      && |domains| == |specs| && IsChoice(domains, choice)
      && Pick(Names(specs), domains, choice) == Restrict(r, NameSet(specs))
  {
    hide Domain, Allows, Restrict, NameSet, Pick;
    DomainsAre(specs, maxCases);
    if specs == [] {
      NothingRestricted(specs, r);
      choice := [];
      PickNothing(Names(specs), Domains(specs, maxCases).value, choice);
    } else {
      assert forall i | 1 <= i < |specs| :: specs[i] == specs[1..][i - 1];
      var rest := InDomainIsPicked(specs[1..], maxCases, r);
      DomainTable(specs[0], maxCases);
      var domain := Domain(specs[0], maxCases).value;
      var k :| 0 <= k < |domain| && domain[k] == r[specs[0].name];
      choice := [k] + rest;
      assert Names(specs)[1..] == Names(specs[1..]);
      RestrictStep(specs, r);
      PickStep(Names(specs), Domains(specs, maxCases).value, k, rest);
    }
  }

  lemma PickNothing(names: seq<string>, domains: seq<seq<Scalar>>, choice: seq<nat>)
    requires |names| == |domains| == 0 && IsChoice(domains, choice)
    ensures Pick(names, domains, choice) == map[]
  {
  }

  lemma PickStep(names: seq<string>, domains: seq<seq<Scalar>>, k: nat, rest: seq<nat>)
    requires |names| == |domains| > 0 && k < |domains[0]| && IsChoice(domains[1..], rest)
    ensures IsChoice(domains, [k] + rest)
    ensures Pick(names, domains, [k] + rest) == Pick(names[1..], domains[1..], rest)[names[0] := domains[0][k]]
  {
    assert ([k] + rest)[1..] == rest;
  }

  lemma NothingRestricted(specs: seq<VariableSpec>, r: Record)
    requires specs == []
    ensures Restrict(r, NameSet(specs)) == map[]
  {
  }

  lemma RestrictStep(specs: seq<VariableSpec>, r: Record)
    requires specs != [] && specs[0].name in r
    ensures Restrict(r, NameSet(specs)) == Restrict(r, NameSet(specs[1..]))[specs[0].name := r[specs[0].name]]
  {
    assert NameSet(specs) == {specs[0].name} + NameSet(specs[1..]) by {
      assert forall i | 1 <= i < |specs| :: specs[i] == specs[1..][i - 1];
    }
  }

  lemma RecordIndex(specs: seq<VariableSpec>, maxCases: nat, r: Record) returns (i: nat)
    requires DistinctNames(specs) && Domains(specs, maxCases).Success? && InDomain(r, specs)
    ensures |Names(specs)| == |Domains(specs, maxCases).value|
    ensures i < |Records(Names(specs), Domains(specs, maxCases).value)|
    ensures Records(Names(specs), Domains(specs, maxCases).value)[i] == Restrict(r, NameSet(specs))
  {
    hide Records, Domains, Pick, InDomain, Names;
    DomainsAre(specs, maxCases);
    NamesAre(specs);
    var choice := InDomainIsPicked(specs, maxCases, r);
    EveryChoiceIsEnumerated(Names(specs), Domains(specs, maxCases).value, choice);
    i := Position(Domains(specs, maxCases).value, choice);
  }

  lemma NamesAre(specs: seq<VariableSpec>)
    ensures |Names(specs)| == |specs|
    ensures forall i | 0 <= i < |specs| :: Names(specs)[i] == specs[i].name
  {
  }

  /** What is enumerated knows the declared variables, no others, and gives them allowed values. */
  lemma RecordIsAllowed(specs: seq<VariableSpec>, maxCases: nat, k: nat)
    requires DistinctNames(specs) && Domains(specs, maxCases).Success?
    requires |Names(specs)| == |Domains(specs, maxCases).value|
    requires k < |Records(Names(specs), Domains(specs, maxCases).value)|
    ensures var r := Records(Names(specs), Domains(specs, maxCases).value)[k];
      InDomain(r, specs) && r.Keys == NameSet(specs)
  {
    hide Records, Domains, Domain, Pick, Names, Allows, Size, Position;
    var names, domains := Names(specs), Domains(specs, maxCases).value;
    DomainsAre(specs, maxCases);
    NamesAre(specs);
    RecordsLength(names, domains);
    var choice := ChoiceAt(domains, k);
    EveryChoiceIsEnumerated(names, domains, choice);
    PickIsInDomain(names, domains, choice);
    forall i | 0 <= i < |specs|
      ensures Allows(specs[i], domains[i][choice[i]])
    {
      DomainTable(specs[i], maxCases);
      assert domains[i][choice[i]] in domains[i];
    }
  }

  /**
   The enumerated records are exactly those that give every declared variable, and nothing else, a
   value its declaration allows.
   */
  lemma RecordsAreTheAllowed(specs: seq<VariableSpec>, maxCases: nat, r: Record)
    requires DistinctNames(specs) && Domains(specs, maxCases).Success?
    ensures |Names(specs)| == |Domains(specs, maxCases).value|
    ensures r in Records(Names(specs), Domains(specs, maxCases).value) <==> InDomain(r, specs) && r.Keys == NameSet(specs)
  {
    hide Records, Domains, InDomain, Names;
    DomainsAre(specs, maxCases);
    NamesAre(specs);
    var records := Records(Names(specs), Domains(specs, maxCases).value);
    if r in records {
      var k: nat :| k < |records| && records[k] == r;
      RecordIsAllowed(specs, maxCases, k);
    }
    if InDomain(r, specs) && r.Keys == NameSet(specs) {
      var k := RecordIndex(specs, maxCases, r);
      assert Restrict(r, NameSet(specs)) == r;
    }
  }

  /** The product of the numbers of values the declarations allow. */
  function Product(specs: seq<VariableSpec>): int {
    if specs == [] then 1 else Count(specs[0]).GetOr(0) * Product(specs[1..])
  }

  /** One record for each choice. */
  lemma {:induction false} SizeIsProduct(specs: seq<VariableSpec>, maxCases: nat)
    requires Domains(specs, maxCases).Success?
    ensures Size(Domains(specs, maxCases).value) == Product(specs)
  {
    hide Domain, Count;
    if specs != [] {
      SizeIsProduct(specs[1..], maxCases);
      DomainTable(specs[0], maxCases);
    }
  }
}
