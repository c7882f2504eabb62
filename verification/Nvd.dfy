/** The evaluator for NVD applicability configurations: trees of CPE matches joined by AND, OR
    and negation, judged from the one CPE name that was asked about. */
module Nvd {
  import opened Wrappers
  import opened Versions
  import C = Cpe

  datatype NvdError =
    | NoOperator | NotAnArrayOf(field: string) | NoTerms | UngroundedAnd | UngroundedNegation
    | UnsupportedOperator(operator: string)
    | NoVulnerableFlag | EnvironmentPredicate | NoCriteria | BadCpe(cpe: C.CpeError) | NoOrder(bound: string)

  /** A JSON field that should hold an array. */
  datatype Listing<T> = Absent | NotAnArray | Items(items: seq<T>)

  datatype CpeMatch = CpeMatch(
    vulnerable: Option<bool>,
    criteria: Option<string>,
    startIncluding: Option<string>,
    startExcluding: Option<string>,
    endIncluding: Option<string>,
    endExcluding: Option<string>)

  datatype Config = Config(operator: Option<string>, negate: bool, cpeMatch: Listing<CpeMatch>, nodes: Listing<Config>)

  /** A verdict, and whether anything about the requested CPE supports it. */
  datatype Eval = Eval(value: bool, grounded: bool)

  // --- one CPE match ---

  /** The fields compared for equality; field 5 is the version. */
  const COMPARED: seq<nat> := [2, 3, 4, 6, 7, 8, 9, 10, 11, 12]

  function SameProduct(criteria: seq<string>, requested: seq<string>, indices: seq<nat>): bool
    requires |criteria| == |requested| == C.FIELD_COUNT && forall i :: 0 <= i < |indices| ==> indices[i] < C.FIELD_COUNT
  {
    if indices == [] then true
    else if criteria[indices[0]] != "*" && criteria[indices[0]] != requested[indices[0]] then false
    else if criteria[indices[0]] != "*" && requested[indices[0]] == "*" then false
    else SameProduct(criteria, requested, indices[1..])
  }

  datatype Bound = Bound(version: Option<string>, inclusive: bool, lower: bool)

  function BoundsOf(m: CpeMatch): seq<Bound> {
    [Bound(m.startIncluding, true, true), Bound(m.startExcluding, false, true),
     Bound(m.endIncluding, true, false), Bound(m.endExcluding, false, false)]
  }

  predicate Accepts(b: Bound, o: Order) {
    o == (if b.lower then Greater else Less) || (b.inclusive && o == Equal)
  }

  /** The bounds are tried in turn; the first refusal settles the matter. */
  function CheckBounds(version: string, bounds: seq<Bound>): Result<Eval, NvdError> {
    if bounds == [] then Ok(Eval(true, true))
    else
      var b := bounds[0];
      if b.version.None? then CheckBounds(version, bounds[1..])
      else
        var o := Versus(version, b.version.value);
        if o.None? then Err(NoOrder(b.version.value))
        else if !Accepts(b, o.value) then Ok(Eval(false, true))
        else CheckBounds(version, bounds[1..])
  }

  /** `eval_cpe_match` */
  function EvalMatch(m: CpeMatch, requested: string): Result<Eval, NvdError> {
    if m.vulnerable.None? then Err(NoVulnerableFlag)
    else if !m.vulnerable.value then Err(EnvironmentPredicate)
    else if m.criteria.None? then Err(NoCriteria)
    else
      var actual := C.Parse(requested);
      if actual.Err? then Err(BadCpe(actual.error))
      else
        var wanted := C.Parse(m.criteria.value);
        if wanted.Err? then Err(BadCpe(wanted.error))
        else if !SameProduct(wanted.value, actual.value, COMPARED) then Ok(Eval(false, false))
        else if wanted.value[5] != "*" && wanted.value[5] != actual.value[5] then Ok(Eval(false, false))
        else CheckBounds(actual.value[5], BoundsOf(m))
  }

  /** A criterion covers a field that equals it, and any field if it is a wildcard. */
  predicate Covers(criterion: string, field: string) {
    criterion == "*" || criterion == field
  }

  ghost predicate Admits(b: Bound, version: string) {
    b.version.Some? ==> Versus(version, b.version.value).Some? && Accepts(b, Versus(version, b.version.value).value)
  }

  ghost predicate AllAdmit(bounds: seq<Bound>, version: string) {
    forall i :: 0 <= i < |bounds| ==> Admits(bounds[i], version)
  }

  ghost predicate Above(version: string, bound: string) { Versus(version, bound) == Some(Greater) }

  ghost predicate Below(version: string, bound: string) { Versus(version, bound) == Some(Less) }

  ghost predicate Same(version: string, bound: string) { Versus(version, bound) == Some(Equal) }

  /** The version lies within each of the four bounds that is given. */
  ghost predicate InRange(m: CpeMatch, version: string) {
    && (m.startIncluding.Some? ==> Above(version, m.startIncluding.value) || Same(version, m.startIncluding.value))
    && (m.startExcluding.Some? ==> Above(version, m.startExcluding.value))
    && (m.endIncluding.Some? ==> Below(version, m.endIncluding.value) || Same(version, m.endIncluding.value))
    && (m.endExcluding.Some? ==> Below(version, m.endExcluding.value))
  }

  /** A bound is given with which the version cannot be compared. */
  ghost predicate Incomparable(version: string, bound: Option<string>) {
    bound.Some? && Versus(version, bound.value).None?
  }

  /** The bounds are tried from the lower to the upper ones, and one with which the version
      cannot be compared is met before one that refuses it. */
  ghost predicate Undecided(m: CpeMatch, version: string) {
    var none := CpeMatch(None, None, None, None, None, None);
    || Incomparable(version, m.startIncluding)
    || (Incomparable(version, m.startExcluding) && InRange(none.(startIncluding := m.startIncluding), version))
    || (&& Incomparable(version, m.endIncluding)
        && InRange(none.(startIncluding := m.startIncluding, startExcluding := m.startExcluding), version))
    || (Incomparable(version, m.endExcluding) && InRange(m.(endExcluding := None), version))
  }

  lemma InRangeIff(m: CpeMatch, version: string)
    ensures InRange(m, version) <==> AllAdmit(BoundsOf(m), version)
  {
    var bounds := BoundsOf(m);
    assert Admits(bounds[0], version) <==>
      (m.startIncluding.Some? ==> Above(version, m.startIncluding.value) || Same(version, m.startIncluding.value));
    assert Admits(bounds[1], version) <==> (m.startExcluding.Some? ==> Above(version, m.startExcluding.value));
    assert Admits(bounds[2], version) <==>
      (m.endIncluding.Some? ==> Below(version, m.endIncluding.value) || Same(version, m.endIncluding.value));
    assert Admits(bounds[3], version) <==> (m.endExcluding.Some? ==> Below(version, m.endExcluding.value));
  }

  lemma {:induction false} SameProductIff(criteria: seq<string>, requested: seq<string>, indices: seq<nat>)
    requires |criteria| == |requested| == C.FIELD_COUNT && forall i :: 0 <= i < |indices| ==> indices[i] < C.FIELD_COUNT
    ensures SameProduct(criteria, requested, indices) <==>
      forall i :: 0 <= i < |indices| ==> Covers(criteria[indices[i]], requested[indices[i]])
  {
    if indices != [] {
      var rest := indices[1..];
      assert forall i :: 0 < i < |indices| ==> indices[i] == rest[i - 1];
      SameProductIff(criteria, requested, rest);
    }
  }

  lemma AllAdmitCons(bounds: seq<Bound>, version: string)
    requires bounds != []
    ensures AllAdmit(bounds, version) <==> Admits(bounds[0], version) && AllAdmit(bounds[1..], version)
  {
    var rest := bounds[1..];
    assert forall i :: 0 < i < |bounds| ==> bounds[i] == rest[i - 1];
    if AllAdmit(bounds, version) {
      forall i | 0 <= i < |rest| ensures Admits(rest[i], version) { assert Admits(bounds[i + 1], version); }
    }
  }

  lemma {:induction false} CheckBoundsIff(version: string, bounds: seq<Bound>)
    ensures
      var r := CheckBounds(version, bounds);
      && (r.Ok? ==> r.value.grounded && (r.value.value <==> AllAdmit(bounds, version)))
      && (AllAdmit(bounds, version) ==> r.Ok?)
  {
    if bounds != [] {
      AllAdmitCons(bounds, version);
      CheckBoundsIff(version, bounds[1..]);
    }
  }

  /** The requested name is of the product, and of the version if one is named, that the
      criteria describe. */
  ghost predicate Describes(criteria: string, requested: string) {
    && C.Parse(criteria).Ok? && C.Parse(requested).Ok?
    && forall k :: 2 <= k < C.FIELD_COUNT ==> Covers(C.Parse(criteria).value[k], C.Parse(requested).value[k])
  }

  lemma DescribesIff(wanted: seq<string>, actual: seq<string>)
    requires |wanted| == |actual| == C.FIELD_COUNT
    ensures SameProduct(wanted, actual, COMPARED) && Covers(wanted[5], actual[5]) <==>
      forall k :: 2 <= k < C.FIELD_COUNT ==> Covers(wanted[k], actual[k])
  {
    SameProductIff(wanted, actual, COMPARED);
    if SameProduct(wanted, actual, COMPARED) {
      forall k | 2 <= k < C.FIELD_COUNT && k != 5 ensures Covers(wanted[k], actual[k]) {
        assert COMPARED[if k < 5 then k - 2 else k - 3] == k;
      }
    }
  }

  /** A match is grounded exactly when the criteria describe the requested name field by field,
      and true exactly when, besides, the version lies within every bound. */
  lemma MatchExact(m: CpeMatch, requested: string)
    requires EvalMatch(m, requested).Ok?
    ensures
      var e := EvalMatch(m, requested).value;
      && m.criteria.Some?
      && (e.grounded <==> Describes(m.criteria.value, requested))
      && (e.value <==> e.grounded && InRange(m, C.Parse(requested).value[5]))
  {
    var actual, wanted := C.Parse(requested).value, C.Parse(m.criteria.value).value;
    DescribesIff(wanted, actual);
    CheckBoundsIff(actual[5], BoundsOf(m));
    InRangeIff(m, actual[5]);
  }

  lemma BoundsFailIff(m: CpeMatch, version: string)
    ensures CheckBounds(version, BoundsOf(m)).Err? <==> Undecided(m, version)
  {
    var bounds := BoundsOf(m);
    assert bounds[1..] == [bounds[1], bounds[2], bounds[3]] && bounds[1..][1..] == [bounds[2], bounds[3]];
    assert [bounds[2], bounds[3]][1..] == [bounds[3]] && [bounds[3]][1..] == [];
    FailIff(version, bounds);
    FailIff(version, bounds[1..]);
    FailIff(version, [bounds[2], bounds[3]]);
    FailIff(version, [bounds[3]]);
  }

  lemma FailIff(version: string, bounds: seq<Bound>)
    requires bounds != []
    ensures CheckBounds(version, bounds).Err? <==>
      Incomparable(version, bounds[0].version) || (Admits(bounds[0], version) && CheckBounds(version, bounds[1..]).Err?)
  {
  }

  /** A match can be evaluated if and only if it is about a vulnerable product, both names
      parse, and, when the criteria describe the requested name, the bounds decide. */
  lemma MatchFailsIff(m: CpeMatch, requested: string)
    ensures EvalMatch(m, requested).Err? <==>
      || m.vulnerable != Some(true) || m.criteria.None?
      || C.Parse(requested).Err? || C.Parse(m.criteria.value).Err?
      || (Describes(m.criteria.value, requested) && Undecided(m, C.Parse(requested).value[5]))
  {
    if m.criteria.Some? && C.Parse(requested).Ok? && C.Parse(m.criteria.value).Ok? {
      var actual, wanted := C.Parse(requested).value, C.Parse(m.criteria.value).value;
      DescribesIff(wanted, actual);
      BoundsFailIff(m, actual[5]);
    }
  }

  lemma AdmitsBetween(b: Bound, u: string, v: string, w: string)
    requires Admits(b, u) && Admits(b, w) && (b.version.Some? ==> Versus(v, b.version.value).Some?)
    requires AtMost(Versus(u, v)) && AtMost(Versus(v, w))
    ensures Admits(b, v)
  {
    if b.version.Some? {
      var bound := Some(Tokens(b.version.value).value);
      if b.lower {
        AboveRises(Tokens(u).value, Tokens(v).value, bound, b.inclusive);
      } else {
        BelowFalls(Tokens(v).value, Tokens(w).value, bound, b.inclusive);
      }
    }
  }

  lemma AllAdmitBetween(bounds: seq<Bound>, u: string, v: string, w: string)
    requires AllAdmit(bounds, u) && AllAdmit(bounds, w) && AtMost(Versus(u, v)) && AtMost(Versus(v, w))
    requires forall i :: 0 <= i < |bounds| ==> !Incomparable(v, bounds[i].version)
    ensures AllAdmit(bounds, v)
  {
    forall i | 0 <= i < |bounds| ensures Admits(bounds[i], v) { AdmitsBetween(bounds[i], u, v, w); }
  }

  /** The versions a match accepts form an interval. */
  lemma RangeIsInterval(m: CpeMatch, u: string, v: string, w: string)
    requires InRange(m, u) && InRange(m, w) && AtMost(Versus(u, v)) && AtMost(Versus(v, w))
    requires !Incomparable(v, m.startIncluding) && !Incomparable(v, m.startExcluding)
    requires !Incomparable(v, m.endIncluding) && !Incomparable(v, m.endExcluding)
    ensures InRange(m, v)
  {
    InRangeIff(m, u);
    InRangeIff(m, v);
    InRangeIff(m, w);
    AllAdmitBetween(BoundsOf(m), u, v, w);
  }

  // --- configurations ---

  function MatchesOf(c: Config): seq<CpeMatch> {
    if c.cpeMatch.Items? then c.cpeMatch.items else []
  }

  function EvalMatches(ms: seq<CpeMatch>, requested: string): (r: Result<seq<Eval>, NvdError>)
    ensures r.Ok? ==> |r.value| == |ms|
  {
    if ms == [] then Ok([])
    else
      var first := EvalMatch(ms[0], requested);
      if first.Err? then Err(first.error)
      else
        var rest := EvalMatches(ms[1..], requested);
        if rest.Err? then rest else Ok([first.value] + rest.value)
  }

  function EvalNodes(ns: seq<Config>, requested: string): (r: Result<seq<Eval>, NvdError>)
    ensures r.Ok? ==> |r.value| == |ns|
    decreases ns
  {
    if ns == [] then Ok([])
    else
      var first := EvalConfig(ns[0], requested);
      if first.Err? then Err(first.error)
      else
        var rest := EvalNodes(ns[1..], requested);
        if rest.Err? then rest else Ok([first.value] + rest.value)
  }

  /** The terms of a configuration: its matches and then its nodes. */
  function Terms(c: Config, requested: string): Result<seq<Eval>, NvdError>
    decreases c, 0
  {
    if c.cpeMatch.NotAnArray? then Err(NotAnArrayOf("cpeMatch"))
    else
      var ms := EvalMatches(MatchesOf(c), requested);
      if ms.Err? then ms
      else if c.nodes.NotAnArray? then Err(NotAnArrayOf("nodes"))
      else if c.nodes.Absent? then ms
      else
        var ns := EvalNodes(c.nodes.items, requested);
        if ns.Err? then ns else Ok(ms.value + ns.value)
  }

  function Values(terms: seq<Eval>): seq<bool> {
    seq(|terms|, i requires 0 <= i < |terms| => terms[i].value)
  }

  predicate AnyGrounded(terms: seq<Eval>) {
    exists t :: t in terms && t.grounded
  }

  predicate AllGrounded(terms: seq<Eval>) {
    forall t :: t in terms ==> t.grounded
  }

  function Join(operator: string, values: seq<bool>): bool {
    if operator == "OR" then true in values else false !in values
  }

  function Negated(negate: bool, value: bool): bool {
    if negate then !value else value
  }

  /** `eval_configuration` */
  function EvalConfig(c: Config, requested: string): Result<Eval, NvdError>
    decreases c, 1
  {
    if c.operator.None? then Err(NoOperator)
    else
      var terms := Terms(c, requested);
      if terms.Err? then Err(terms.error)
      else if terms.value == [] then Err(NoTerms)
      else if c.operator.value != "OR" && c.operator.value != "AND" then Err(UnsupportedOperator(c.operator.value))
      else if c.operator.value == "AND" && !AllGrounded(terms.value) then Err(UngroundedAnd)
      else if c.negate && !AnyGrounded(terms.value) then Err(UngroundedNegation)
      else Ok(Eval(Negated(c.negate, Join(c.operator.value, Values(terms.value))), AnyGrounded(terms.value)))
  }

  // --- a true verdict is grounded ---

  lemma {:induction false} MatchesGrounded(ms: seq<CpeMatch>, requested: string)
    requires EvalMatches(ms, requested).Ok?
    ensures forall t :: t in EvalMatches(ms, requested).value && t.value ==> t.grounded
  {
    if ms != [] {
      MatchExact(ms[0], requested);
      MatchesGrounded(ms[1..], requested);
    }
  }

  lemma {:induction false} NodesGrounded(ns: seq<Config>, requested: string)
    requires EvalNodes(ns, requested).Ok?
    ensures forall t :: t in EvalNodes(ns, requested).value && t.value ==> t.grounded
    decreases ns
  {
    if ns != [] {
      TrueIsGrounded(ns[0], requested);
      NodesGrounded(ns[1..], requested);
    }
  }

  /** No verdict of "applicable", negated or not, rests on nothing known about the request. */
  lemma {:induction false} TrueIsGrounded(c: Config, requested: string)
    requires EvalConfig(c, requested).Ok?
    ensures EvalConfig(c, requested).value.value ==> EvalConfig(c, requested).value.grounded
    decreases c
  {
    MatchesGrounded(MatchesOf(c), requested);
    if c.nodes.Items? { NodesGrounded(c.nodes.items, requested); }
    var terms := Terms(c, requested).value;
    if EvalConfig(c, requested).value.value && !c.negate {
      if c.operator.value == "OR" {
        var i :| 0 <= i < |terms| && Values(terms)[i];
        assert terms[i] in terms;
      } else {
        assert terms[0] in terms;
      }
    }
  }
}
