/** What a verdict on a configuration says about the machines it was not told about: the
    leaves the request does not ground may turn out either way. */
module NvdMeaning {
  import opened Wrappers
  import opened Versions
  import opened Nvd

  /** A truth value for every match and, recursively, for the matches of every node. */
  datatype Completion = Completion(leaves: seq<bool>, subs: seq<Completion>)

  function NodesOf(c: Config): seq<Config> {
    if c.nodes.Items? then c.nodes.items else []
  }

  ghost predicate Fits(c: Config, k: Completion)
    decreases c
  {
    && |k.leaves| == |MatchesOf(c)| && |k.subs| == |NodesOf(c)|
    && forall i :: 0 <= i < |NodesOf(c)| ==> Fits(NodesOf(c)[i], k.subs[i])
  }

  /** A leaf the request grounds keeps its verdict; any other is as guessed. */
  function LeafTruth(m: CpeMatch, requested: string, guess: bool): bool {
    var e := EvalMatch(m, requested);
    if e.Ok? && e.value.grounded then e.value.value else guess
  }

  function LeafTruths(ms: seq<CpeMatch>, requested: string, guesses: seq<bool>): seq<bool>
    requires |ms| == |guesses|
  {
    seq(|ms|, i requires 0 <= i < |ms| => LeafTruth(ms[i], requested, guesses[i]))
  }

  function Joined(c: Config, values: seq<bool>): bool {
    c.operator.Some? && Negated(c.negate, Join(c.operator.value, values))
  }

  ghost function SubTruths(c: Config, requested: string, subs: seq<Completion>): seq<bool>
    requires |subs| == |NodesOf(c)| && forall i :: 0 <= i < |subs| ==> Fits(NodesOf(c)[i], subs[i])
    decreases c, 0
  {
    seq(|subs|, i requires 0 <= i < |subs| => Truth(NodesOf(c)[i], requested, subs[i]))
  }

  /** The plain meaning of the tree once every leaf has a truth value. */
  ghost function Truth(c: Config, requested: string, k: Completion): bool
    requires Fits(c, k)
    decreases c, 1
  {
    Joined(c, LeafTruths(MatchesOf(c), requested, k.leaves) + SubTruths(c, requested, k.subs))
  }

  // --- the extremes ---

  function Uniform(n: nat, guess: bool): (s: seq<bool>)
    ensures |s| == n && forall i :: 0 <= i < n ==> s[i] == guess
  {
    seq(n, _ => guess)
  }

  /** Interval evaluation: the least (or greatest) value the tree can take. */
  function Extreme(c: Config, requested: string, high: bool): bool
    decreases c, 1
  {
    var guess := Negated(c.negate, high);
    Joined(c, LeafTruths(MatchesOf(c), requested, Uniform(|MatchesOf(c)|, guess)) + SubExtremes(c, requested, guess))
  }

  function SubExtremes(c: Config, requested: string, high: bool): seq<bool>
    decreases c, 0
  {
    seq(|NodesOf(c)|, i requires 0 <= i < |NodesOf(c)| => Extreme(NodesOf(c)[i], requested, high))
  }

  /** The completion that drives the tree to its extreme. */
  function Drive(c: Config, high: bool): (k: Completion)
    ensures Fits(c, k)
    decreases c
  {
    var guess := Negated(c.negate, high);
    Completion(Uniform(|MatchesOf(c)|, guess), seq(|NodesOf(c)|, i requires 0 <= i < |NodesOf(c)| => Drive(NodesOf(c)[i], guess)))
  }

  ghost predicate Implies(a: seq<bool>, b: seq<bool>) {
    |a| == |b| && forall i :: 0 <= i < |a| ==> a[i] ==> b[i]
  }

  lemma JoinMonotone(operator: string, a: seq<bool>, b: seq<bool>)
    requires Implies(a, b) && Join(operator, a)
    ensures Join(operator, b)
  {
    if operator == "OR" {
      var i :| 0 <= i < |a| && a[i];
      assert b[i] in b;
    } else {
      forall i | 0 <= i < |b| ensures b[i] { assert a[i] in a; }
    }
  }

  lemma JoinedMonotone(c: Config, a: seq<bool>, b: seq<bool>)
    requires Implies(a, b)
    ensures !c.negate && Joined(c, a) ==> Joined(c, b)
    ensures c.negate && Joined(c, b) ==> Joined(c, a)
  {
    if c.operator.Some? && Join(c.operator.value, a) { JoinMonotone(c.operator.value, a, b); }
  }

  lemma LeavesBetween(ms: seq<CpeMatch>, requested: string, guesses: seq<bool>)
    requires |ms| == |guesses|
    ensures Implies(LeafTruths(ms, requested, Uniform(|ms|, false)), LeafTruths(ms, requested, guesses))
    ensures Implies(LeafTruths(ms, requested, guesses), LeafTruths(ms, requested, Uniform(|ms|, true)))
  {
  }

  lemma ImpliesConcat(a: seq<bool>, b: seq<bool>, x: seq<bool>, y: seq<bool>)
    requires Implies(a, b) && Implies(x, y)
    ensures Implies(a + x, b + y)
  {
  }

  /** Every completion lies between the two extremes. */
  lemma {:induction false} Between(c: Config, requested: string, k: Completion)
    requires Fits(c, k)
    ensures Extreme(c, requested, false) ==> Truth(c, requested, k)
    ensures Truth(c, requested, k) ==> Extreme(c, requested, true)
    decreases c
  {
    var ms, nodes := MatchesOf(c), NodesOf(c);
    forall i | 0 <= i < |nodes|
      ensures Extreme(nodes[i], requested, false) ==> Truth(nodes[i], requested, k.subs[i])
      ensures Truth(nodes[i], requested, k.subs[i]) ==> Extreme(nodes[i], requested, true)
    {
      Between(nodes[i], requested, k.subs[i]);
    }
    LeavesBetween(ms, requested, k.leaves);
    var low, high := LeafTruths(ms, requested, Uniform(|ms|, false)), LeafTruths(ms, requested, Uniform(|ms|, true));
    var here, subs := LeafTruths(ms, requested, k.leaves), SubTruths(c, requested, k.subs);
    ImpliesConcat(low, here, SubExtremes(c, requested, false), subs);
    ImpliesConcat(here, high, subs, SubExtremes(c, requested, true));
    JoinedMonotone(c, low + SubExtremes(c, requested, false), here + subs);
    JoinedMonotone(c, here + subs, high + SubExtremes(c, requested, true));
  }

  /** Both extremes are attained. */
  lemma {:induction false} Attained(c: Config, requested: string, high: bool)
    ensures Truth(c, requested, Drive(c, high)) == Extreme(c, requested, high)
    decreases c
  {
    var guess, nodes := Negated(c.negate, high), NodesOf(c);
    forall i | 0 <= i < |nodes| ensures Truth(nodes[i], requested, Drive(nodes[i], guess)) == Extreme(nodes[i], requested, guess) {
      Attained(nodes[i], requested, guess);
    }
    assert SubTruths(c, requested, Drive(c, high).subs) == SubExtremes(c, requested, guess);
  }

  /** The configuration applies whatever the ungrounded leaves turn out to be. */
  ghost predicate Robust(c: Config, requested: string) {
    forall k :: Fits(c, k) ==> Truth(c, requested, k)
  }

  /** Interval evaluation decides robustness. */
  lemma RobustIff(c: Config, requested: string)
    ensures Robust(c, requested) <==> Extreme(c, requested, false)
  {
    if Extreme(c, requested, false) {
      forall k | Fits(c, k) ensures Truth(c, requested, k) { Between(c, requested, k); }
    } else {
      Attained(c, requested, false);
    }
  }

  // --- the evaluator against the meaning ---

  ghost predicate NegateFree(c: Config)
    decreases c
  {
    !c.negate && forall i :: 0 <= i < |NodesOf(c)| ==> NegateFree(NodesOf(c)[i])
  }

  predicate IsGrounded(m: CpeMatch, requested: string) {
    EvalMatch(m, requested).Ok? && EvalMatch(m, requested).value.grounded
  }

  /** Every ungrounded leaf takes part with the value false when the tree is driven to `high`:
      for the lowest value, every such leaf lies below an even number of negations. */
  ghost predicate OpenLeavesLow(c: Config, requested: string, high: bool)
    decreases c
  {
    var guess := Negated(c.negate, high);
    && (guess ==> forall m :: m in MatchesOf(c) ==> IsGrounded(m, requested))
    && forall i :: 0 <= i < |NodesOf(c)| ==> OpenLeavesLow(NodesOf(c)[i], requested, guess)
  }

  lemma {:induction false} NegateFreeIsLow(c: Config, requested: string)
    requires NegateFree(c)
    ensures OpenLeavesLow(c, requested, false)
    decreases c
  {
    forall i | 0 <= i < |NodesOf(c)| ensures OpenLeavesLow(NodesOf(c)[i], requested, false) {
      NegateFreeIsLow(NodesOf(c)[i], requested);
    }
  }

  lemma {:induction false} MatchValues(ms: seq<CpeMatch>, requested: string, i: int)
    requires EvalMatches(ms, requested).Ok? && 0 <= i < |ms|
    ensures EvalMatch(ms[i], requested) == Ok(EvalMatches(ms, requested).value[i])
  {
    if i > 0 { MatchValues(ms[1..], requested, i - 1); }
  }

  lemma {:induction false} NodeValues(ns: seq<Config>, requested: string, i: int)
    requires EvalNodes(ns, requested).Ok? && 0 <= i < |ns|
    ensures EvalConfig(ns[i], requested) == Ok(EvalNodes(ns, requested).value[i])
    decreases |ns|
  {
    if i > 0 { NodeValues(ns[1..], requested, i - 1); }
  }

  /** An ungrounded match evaluates to false, so the evaluator sees every open leaf as false. */
  lemma LeavesAreLow(ms: seq<CpeMatch>, requested: string, guess: bool)
    requires EvalMatches(ms, requested).Ok? && (guess ==> forall m :: m in ms ==> IsGrounded(m, requested))
    ensures Values(EvalMatches(ms, requested).value) == LeafTruths(ms, requested, Uniform(|ms|, guess))
  {
    forall i | 0 <= i < |ms|
      ensures EvalMatches(ms, requested).value[i].value == LeafTruth(ms[i], requested, guess)
    {
      MatchValues(ms, requested, i);
      MatchExact(ms[i], requested);
      assert ms[i] in ms;
    }
  }

  lemma ValuesConcat(a: seq<Eval>, b: seq<Eval>)
    ensures Values(a + b) == Values(a) + Values(b)
  {
  }

  lemma JoinedValues(c: Config, requested: string, subs: seq<bool>, leaves: seq<bool>)
    requires EvalConfig(c, requested).Ok? && EvalMatches(MatchesOf(c), requested).Ok?
    requires c.nodes.Items? ==> EvalNodes(c.nodes.items, requested).Ok?
    requires leaves == Values(EvalMatches(MatchesOf(c), requested).value)
    requires subs == if c.nodes.Items? then Values(EvalNodes(c.nodes.items, requested).value) else []
    ensures EvalConfig(c, requested).value.value == Joined(c, leaves + subs)
  {
    if c.nodes.Items? {
      ValuesConcat(EvalMatches(MatchesOf(c), requested).value, EvalNodes(c.nodes.items, requested).value);
    } else {
      assert leaves + [] == leaves;
    }
  }

  /** Where every open leaf takes part as false, the evaluator computes the extreme. */
  lemma {:induction false} VerdictIsExtreme(c: Config, requested: string, high: bool)
    requires EvalConfig(c, requested).Ok? && OpenLeavesLow(c, requested, high)
    ensures EvalConfig(c, requested).value.value == Extreme(c, requested, high)
    decreases c
  {
    var ms, nodes, guess := MatchesOf(c), NodesOf(c), Negated(c.negate, high);
    LeavesAreLow(ms, requested, guess);
    var subs := SubExtremes(c, requested, guess);
    if c.nodes.Items? {
      var evals := EvalNodes(nodes, requested).value;
      forall i | 0 <= i < |nodes| ensures evals[i].value == Extreme(nodes[i], requested, guess) {
        NodeValues(nodes, requested, i);
        VerdictIsExtreme(nodes[i], requested, guess);
      }
      assert Values(evals) == subs;
    } else {
      assert subs == [];
    }
    JoinedValues(c, requested, subs, LeafTruths(ms, requested, Uniform(|ms|, guess)));
  }

  /** The completion that takes every open leaf to be false. */
  function AllFalse(c: Config): (k: Completion)
    ensures Fits(c, k)
    decreases c
  {
    Completion(Uniform(|MatchesOf(c)|, false), seq(|NodesOf(c)|, i requires 0 <= i < |NodesOf(c)| => AllFalse(NodesOf(c)[i])))
  }

  /** The evaluator's verdict is the meaning of the tree with every open leaf taken as false. */
  lemma {:induction false} VerdictIsTruth(c: Config, requested: string)
    requires EvalConfig(c, requested).Ok?
    ensures EvalConfig(c, requested).value.value == Truth(c, requested, AllFalse(c))
    decreases c
  {
    var ms, nodes := MatchesOf(c), NodesOf(c);
    LeavesAreLow(ms, requested, false);
    var subs := SubTruths(c, requested, AllFalse(c).subs);
    if c.nodes.Items? {
      var evals := EvalNodes(nodes, requested).value;
      forall i | 0 <= i < |nodes| ensures evals[i].value == Truth(nodes[i], requested, AllFalse(nodes[i])) {
        NodeValues(nodes, requested, i);
        VerdictIsTruth(nodes[i], requested);
      }
      assert Values(evals) == subs;
    } else {
      assert subs == [];
    }
    JoinedValues(c, requested, subs, LeafTruths(ms, requested, Uniform(|ms|, false)));
  }

  /** A robust configuration is always judged applicable; a verdict of "applicable" is robust
      exactly when interval evaluation says so. */
  lemma RobustVerdict(c: Config, requested: string)
    requires EvalConfig(c, requested).Ok?
    ensures Robust(c, requested) <==> EvalConfig(c, requested).value.value && Extreme(c, requested, false)
  {
    RobustIff(c, requested);
    VerdictIsTruth(c, requested);
  }

  /** When every open leaf lies below an even number of negations, "applicable" holds under
      every completion, and "not applicable" fails under some. */
  lemma EvenNegationVerdict(c: Config, requested: string)
    requires EvalConfig(c, requested).Ok? && OpenLeavesLow(c, requested, false)
    ensures EvalConfig(c, requested).value.value <==> Robust(c, requested)
  {
    VerdictIsExtreme(c, requested, false);
    RobustIff(c, requested);
  }

  /** In particular for a tree without negation. */
  lemma NegateFreeVerdict(c: Config, requested: string)
    requires EvalConfig(c, requested).Ok? && NegateFree(c)
    ensures EvalConfig(c, requested).value.value <==> Robust(c, requested)
  {
    NegateFreeIsLow(c, requested);
    EvenNegationVerdict(c, requested);
  }

  // --- with negation ---

  /** The negation of an OR with one refuted leaf and one open leaf. */
  lemma NegatedOpenLeaf(c: Config, requested: string, refuted: CpeMatch, open: CpeMatch)
    requires c == Config(Some("OR"), true, Items([refuted, open]), Absent)
    requires EvalMatch(refuted, requested) == Ok(Eval(false, true)) && EvalMatch(open, requested) == Ok(Eval(false, false))
    ensures EvalConfig(c, requested) == Ok(Eval(true, true)) && !Robust(c, requested)
  {
    var ms, evals := [refuted, open], [Eval(false, true), Eval(false, false)];
    assert ms[1..] == [open] && [open][1..] == [];
    assert [evals[1]] + [] == [evals[1]] && [evals[0]] + [evals[1]] == evals;
    assert EvalMatches([open], requested) == Ok([evals[1]]);
    assert EvalMatches(ms, requested) == Ok(evals);
    assert evals[0] in evals && Values(evals) == [false, false];
    RobustIff(c, requested);
    var leaves := LeafTruths(ms, requested, Uniform(2, true));
    assert leaves == [false, true] && leaves[1] in leaves + SubExtremes(c, requested, true);
  }

  function Name(product: string, version: string): (fields: seq<string>)
    ensures C.IsName(fields) && fields[4] == product && fields[5] == version
    ensures forall k :: 2 <= k < C.FIELD_COUNT && k != 4 && k != 5 ==> fields[k] == "*"
  {
    ["cpe", "2.3", "*", "*", product, version, "*", "*", "*", "*", "*", "*", "*"]
  }

  function AtLeast(product: string, bound: string): CpeMatch {
    CpeMatch(Some(true), Some(C.Format(Name(product, "*"))), Some(bound), None, None, None)
  }

  lemma SameExceptVersion(product: string, version: string)
    ensures SameProduct(Name(product, "*"), Name(product, version), COMPARED)
  {
    var wanted, actual := Name(product, "*"), Name(product, version);
    SameProductIff(wanted, actual, COMPARED);
    forall i | 0 <= i < |COMPARED| ensures Covers(wanted[COMPARED[i]], actual[COMPARED[i]]) {
      assert 2 <= COMPARED[i] < C.FIELD_COUNT && COMPARED[i] != 5;
    }
  }

  lemma RefusedAtOnce(version: string, bound: string, bounds: seq<Bound>)
    requires bounds != [] && bounds[0] == Bound(Some(bound), true, true) && Versus(version, bound) == Some(Less)
    ensures CheckBounds(version, bounds) == Ok(Eval(false, true))
  {
  }

  lemma TooOld(product: string, version: string, bound: string)
    requires Versus(version, bound) == Some(Less) && product != "*"
    ensures EvalMatch(AtLeast(product, bound), C.Format(Name(product, version))) == Ok(Eval(false, true))
  {
    C.NameRoundTrip(Name(product, "*"));
    C.NameRoundTrip(Name(product, version));
    SameExceptVersion(product, version);
    RefusedAtOnce(version, bound, BoundsOf(AtLeast(product, bound)));
  }

  lemma OtherProduct(product: string, other: string, version: string, bound: string)
    requires other != product && other != "*"
    ensures EvalMatch(AtLeast(other, bound), C.Format(Name(product, version))) == Ok(Eval(false, false))
  {
    var wanted, actual := Name(other, "*"), Name(product, version);
    C.NameRoundTrip(wanted);
    C.NameRoundTrip(actual);
    SameProductIff(wanted, actual, COMPARED);
    assert COMPARED[2] == 4 && !Covers(wanted[4], actual[4]);
  }

  /** "Neither this product from `bound` on, nor that other product", asked about an older
      version of this product: applicable and grounded, although the other may be installed. */
  lemma NegationIsNotRobust(product: string, other: string, version: string, bound: string) returns (c: Config)
    requires other != product && other != "*" && product != "*" && Versus(version, bound) == Some(Less)
    ensures EvalConfig(c, C.Format(Name(product, version))) == Ok(Eval(true, true))
    ensures !Robust(c, C.Format(Name(product, version)))
  {
    c := Config(Some("OR"), true, Items([AtLeast(product, bound), AtLeast(other, bound)]), Absent);
    TooOld(product, version, bound);
    OtherProduct(product, other, version, bound);
    NegatedOpenLeaf(c, C.Format(Name(product, version)), AtLeast(product, bound), AtLeast(other, bound));
  }
}
