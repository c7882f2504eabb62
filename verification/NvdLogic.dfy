/** What a configuration means and when it can be evaluated, in terms of its leaves. */
module NvdLogic {
  import opened Wrappers
  import opened Nvd
  import opened NvdMeaning

  // --- the meaning of one node ---

  /** The leaf's truth: known from the request when the criteria describe it, else guessed. */
  ghost predicate LeafHolds(m: CpeMatch, requested: string, guess: bool) {
    if EvalMatch(m, requested).Ok? && m.criteria.Some? && Describes(m.criteria.value, requested)
    then InRange(m, C.Parse(requested).value[5])
    else guess
  }

  lemma LeafIff(m: CpeMatch, requested: string, guess: bool)
    ensures LeafTruth(m, requested, guess) <==> LeafHolds(m, requested, guess)
  {
    if EvalMatch(m, requested).Ok? { MatchExact(m, requested); }
  }

  ghost predicate LeafAt(c: Config, requested: string, k: Completion, i: int)
    requires Fits(c, k)
  {
    0 <= i < |MatchesOf(c)| && LeafHolds(MatchesOf(c)[i], requested, k.leaves[i])
  }

  ghost predicate NodeAt(c: Config, requested: string, k: Completion, i: int)
    requires Fits(c, k)
  {
    0 <= i < |NodesOf(c)| && Truth(NodesOf(c)[i], requested, k.subs[i])
  }

  ghost predicate SomeTerm(c: Config, requested: string, k: Completion)
    requires Fits(c, k)
  {
    (exists i :: LeafAt(c, requested, k, i)) || (exists i :: NodeAt(c, requested, k, i))
  }

  ghost predicate EveryTerm(c: Config, requested: string, k: Completion)
    requires Fits(c, k)
  {
    && (forall i :: 0 <= i < |MatchesOf(c)| ==> LeafAt(c, requested, k, i))
    && (forall i :: 0 <= i < |NodesOf(c)| ==> NodeAt(c, requested, k, i))
  }

  lemma TermValues(c: Config, requested: string, k: Completion, values: seq<bool>)
    requires Fits(c, k)
    requires values == LeafTruths(MatchesOf(c), requested, k.leaves) + SubTruths(c, requested, k.subs)
    ensures true in values <==> SomeTerm(c, requested, k)
    ensures false !in values <==> EveryTerm(c, requested, k)
  {
    var n := |MatchesOf(c)|;
    forall i | 0 <= i < n ensures values[i] <==> LeafAt(c, requested, k, i) {
      LeafIff(MatchesOf(c)[i], requested, k.leaves[i]);
    }
    forall i | 0 <= i < |NodesOf(c)| ensures values[n + i] <==> NodeAt(c, requested, k, i) {
    }
    if true in values {
      var j :| 0 <= j < |values| && values[j];
      if j >= n { assert NodeAt(c, requested, k, j - n); }
    }
    if EveryTerm(c, requested, k) {
      forall j | 0 <= j < |values| ensures values[j] { if j >= n { assert NodeAt(c, requested, k, j - n); } }
    }
  }

  /** An OR holds when some term does, an AND when every term does, and negation turns either
      around. */
  lemma TruthMeans(c: Config, requested: string, k: Completion)
    requires Fits(c, k)
    ensures c.operator == Some("OR") ==> (Truth(c, requested, k) <==> (c.negate <==> !SomeTerm(c, requested, k)))
    ensures c.operator == Some("AND") ==> (Truth(c, requested, k) <==> (c.negate <==> !EveryTerm(c, requested, k)))
  {
    TermValues(c, requested, k, LeafTruths(MatchesOf(c), requested, k.leaves) + SubTruths(c, requested, k.subs));
  }

  // --- when a configuration can be evaluated ---

  ghost predicate LeafGrounded(m: CpeMatch, requested: string) {
    m.criteria.Some? && Describes(m.criteria.value, requested)
  }

  /** Some leaf below is described by the request. */
  ghost predicate Grounded(c: Config, requested: string)
    decreases c
  {
    || (exists i :: 0 <= i < |MatchesOf(c)| && LeafGrounded(MatchesOf(c)[i], requested))
    || (exists i :: 0 <= i < |NodesOf(c)| && Grounded(NodesOf(c)[i], requested))
  }

  ghost predicate TermsEvaluate(c: Config, requested: string)
    decreases c, 0
  {
    && (forall i :: 0 <= i < |MatchesOf(c)| ==> EvalMatch(MatchesOf(c)[i], requested).Ok?)
    && (forall i :: 0 <= i < |NodesOf(c)| ==> Evaluates(NodesOf(c)[i], requested))
  }

  /** The tree is well formed, all its terms can be evaluated, every term of an AND is
      grounded, and so is some term of a negation. */
  ghost predicate Evaluates(c: Config, requested: string)
    decreases c, 1
  {
    && (c.operator == Some("OR") || c.operator == Some("AND"))
    && !c.cpeMatch.NotAnArray? && !c.nodes.NotAnArray? && |MatchesOf(c)| + |NodesOf(c)| > 0
    && TermsEvaluate(c, requested)
    && (c.operator == Some("AND") ==>
          && (forall i :: 0 <= i < |MatchesOf(c)| ==> LeafGrounded(MatchesOf(c)[i], requested))
          && (forall i :: 0 <= i < |NodesOf(c)| ==> Grounded(NodesOf(c)[i], requested)))
    && (c.negate ==> Grounded(c, requested))
  }

  lemma {:induction false} MatchesOkIff(ms: seq<CpeMatch>, requested: string)
    ensures EvalMatches(ms, requested).Ok? <==> forall i :: 0 <= i < |ms| ==> EvalMatch(ms[i], requested).Ok?
  {
    if ms != [] {
      MatchesOkIff(ms[1..], requested);
      assert forall i :: 0 < i < |ms| ==> ms[i] == ms[1..][i - 1];
      if forall i :: 0 <= i < |ms| ==> EvalMatch(ms[i], requested).Ok? {
        forall i | 0 <= i < |ms[1..]| ensures EvalMatch(ms[1..][i], requested).Ok? { assert ms[1..][i] == ms[i + 1]; }
      }
    }
  }

  lemma {:induction false} NodesOkIff(ns: seq<Config>, requested: string)
    ensures EvalNodes(ns, requested).Ok? <==> forall i :: 0 <= i < |ns| ==> EvalConfig(ns[i], requested).Ok?
    decreases |ns|
  {
    if ns != [] {
      NodesOkIff(ns[1..], requested);
      assert forall i :: 0 < i < |ns| ==> ns[i] == ns[1..][i - 1];
      if forall i :: 0 <= i < |ns| ==> EvalConfig(ns[i], requested).Ok? {
        forall i | 0 <= i < |ns[1..]| ensures EvalConfig(ns[1..][i], requested).Ok? { assert ns[1..][i] == ns[i + 1]; }
      }
    }
  }

  /** The terms are the matches and then the nodes. */
  ghost predicate TermsAre(c: Config, requested: string, terms: seq<Eval>) {
    && |terms| == |MatchesOf(c)| + |NodesOf(c)|
    && (forall i :: 0 <= i < |MatchesOf(c)| ==> EvalMatch(MatchesOf(c)[i], requested) == Ok(terms[i]))
    && (forall i :: 0 <= i < |NodesOf(c)| ==> EvalConfig(NodesOf(c)[i], requested) == Ok(terms[|MatchesOf(c)| + i]))
  }

  lemma TermsOk(c: Config, requested: string)
    ensures Terms(c, requested).Ok? <==>
      && !c.cpeMatch.NotAnArray? && !c.nodes.NotAnArray?
      && (forall i :: 0 <= i < |MatchesOf(c)| ==> EvalMatch(MatchesOf(c)[i], requested).Ok?)
      && (forall i :: 0 <= i < |NodesOf(c)| ==> EvalConfig(NodesOf(c)[i], requested).Ok?)
    ensures Terms(c, requested).Ok? ==> TermsAre(c, requested, Terms(c, requested).value)
  {
    MatchesOkIff(MatchesOf(c), requested);
    NodesOkIff(NodesOf(c), requested);
    if Terms(c, requested).Ok? {
      forall i | 0 <= i < |MatchesOf(c)| ensures EvalMatch(MatchesOf(c)[i], requested) == Ok(Terms(c, requested).value[i]) {
        MatchValues(MatchesOf(c), requested, i);
      }
      forall i | 0 <= i < |NodesOf(c)|
        ensures EvalConfig(NodesOf(c)[i], requested) == Ok(Terms(c, requested).value[|MatchesOf(c)| + i])
      {
        NodeValues(NodesOf(c), requested, i);
      }
    }
  }

  /** The `j`-th term is grounded: a match the request describes, or a node with one below. */
  ghost predicate TermGrounded(c: Config, requested: string, j: int) {
    if 0 <= j < |MatchesOf(c)| then LeafGrounded(MatchesOf(c)[j], requested)
    else |MatchesOf(c)| <= j < |MatchesOf(c)| + |NodesOf(c)| && Grounded(NodesOf(c)[j - |MatchesOf(c)|], requested)
  }

  lemma TermGroundedIff(c: Config, requested: string, terms: seq<Eval>, j: int)
    requires TermsAre(c, requested, terms) && 0 <= j < |terms|
    requires forall i :: 0 <= i < |NodesOf(c)| ==> (terms[|MatchesOf(c)| + i].grounded <==> Grounded(NodesOf(c)[i], requested))
    ensures terms[j].grounded <==> TermGrounded(c, requested, j)
  {
    var n := |MatchesOf(c)|;
    if j < n {
      assert EvalMatch(MatchesOf(c)[j], requested) == Ok(terms[j]);
      MatchExact(MatchesOf(c)[j], requested);
    } else {
      assert terms[n + (j - n)].grounded <==> Grounded(NodesOf(c)[j - n], requested);
    }
  }

  lemma SomeTermGrounded(c: Config, requested: string)
    ensures Grounded(c, requested) <==> exists j :: 0 <= j < |MatchesOf(c)| + |NodesOf(c)| && TermGrounded(c, requested, j)
  {
    var n := |MatchesOf(c)|;
    if i :| 0 <= i < n && LeafGrounded(MatchesOf(c)[i], requested) { assert TermGrounded(c, requested, i); }
    if i :| 0 <= i < |NodesOf(c)| && Grounded(NodesOf(c)[i], requested) { assert TermGrounded(c, requested, n + i); }
  }

  lemma EveryTermGrounded(c: Config, requested: string)
    ensures (forall j :: 0 <= j < |MatchesOf(c)| + |NodesOf(c)| ==> TermGrounded(c, requested, j)) <==>
      && (forall i :: 0 <= i < |MatchesOf(c)| ==> LeafGrounded(MatchesOf(c)[i], requested))
      && (forall i :: 0 <= i < |NodesOf(c)| ==> Grounded(NodesOf(c)[i], requested))
  {
    var n := |MatchesOf(c)|;
    if forall j :: 0 <= j < n + |NodesOf(c)| ==> TermGrounded(c, requested, j) {
      forall i | 0 <= i < n ensures LeafGrounded(MatchesOf(c)[i], requested) { assert TermGrounded(c, requested, i); }
      forall i | 0 <= i < |NodesOf(c)| ensures Grounded(NodesOf(c)[i], requested) { assert TermGrounded(c, requested, n + i); }
    }
  }

  lemma TermsGrounded(c: Config, requested: string, terms: seq<Eval>)
    requires TermsAre(c, requested, terms)
    requires forall i :: 0 <= i < |NodesOf(c)| ==> (terms[|MatchesOf(c)| + i].grounded <==> Grounded(NodesOf(c)[i], requested))
    ensures AnyGrounded(terms) <==> exists j :: 0 <= j < |terms| && TermGrounded(c, requested, j)
    ensures AllGrounded(terms) <==> forall j :: 0 <= j < |terms| ==> TermGrounded(c, requested, j)
  {
    forall j | 0 <= j < |terms| ensures (terms[j].grounded <==> TermGrounded(c, requested, j)) && terms[j] in terms {
      TermGroundedIff(c, requested, terms, j);
    }
  }

  /** The conditions on the operator, once the terms are there. */
  lemma OperatorOk(c: Config, requested: string, terms: seq<Eval>)
    requires Terms(c, requested) == Ok(terms)
    ensures EvalConfig(c, requested).Ok? <==>
      && terms != [] && (c.operator == Some("OR") || c.operator == Some("AND"))
      && (c.operator == Some("AND") ==> AllGrounded(terms)) && (c.negate ==> AnyGrounded(terms))
    ensures EvalConfig(c, requested).Ok? ==> (EvalConfig(c, requested).value.grounded <==> AnyGrounded(terms))
  {
  }

  ghost predicate NodesAgree(c: Config, requested: string) {
    forall i :: 0 <= i < |NodesOf(c)| ==>
      var e := EvalConfig(NodesOf(c)[i], requested);
      && (e.Ok? <==> Evaluates(NodesOf(c)[i], requested))
      && (e.Ok? ==> (e.value.grounded <==> Grounded(NodesOf(c)[i], requested)))
  }

  lemma TermsAgree(c: Config, requested: string, terms: seq<Eval>)
    requires NodesAgree(c, requested) && TermsAre(c, requested, terms)
    ensures AnyGrounded(terms) <==> Grounded(c, requested)
    ensures AllGrounded(terms) <==>
      && (forall i :: 0 <= i < |MatchesOf(c)| ==> LeafGrounded(MatchesOf(c)[i], requested))
      && (forall i :: 0 <= i < |NodesOf(c)| ==> Grounded(NodesOf(c)[i], requested))
  {
    SomeTermGrounded(c, requested);
    EveryTermGrounded(c, requested);
    TermsGrounded(c, requested, terms);
  }

  lemma TermsEvaluateIff(c: Config, requested: string)
    requires NodesAgree(c, requested)
    ensures Terms(c, requested).Ok? <==> !c.cpeMatch.NotAnArray? && !c.nodes.NotAnArray? && TermsEvaluate(c, requested)
  {
    TermsOk(c, requested);
  }

  lemma EvaluatesHere(c: Config, requested: string)
    requires NodesAgree(c, requested)
    ensures EvalConfig(c, requested).Ok? <==> Evaluates(c, requested)
    ensures EvalConfig(c, requested).Ok? ==> (EvalConfig(c, requested).value.grounded <==> Grounded(c, requested))
  {
    TermsEvaluateIff(c, requested);
    if Terms(c, requested).Ok? {
      TermsOk(c, requested);
      TermsAgree(c, requested, Terms(c, requested).value);
      OperatorOk(c, requested, Terms(c, requested).value);
    }
  }

  /** A configuration evaluates if and only if it is acceptable in this sense, and then its
      verdict is grounded if and only if some leaf is. */
  lemma {:induction false} EvaluatesIff(c: Config, requested: string)
    ensures EvalConfig(c, requested).Ok? <==> Evaluates(c, requested)
    ensures EvalConfig(c, requested).Ok? ==> (EvalConfig(c, requested).value.grounded <==> Grounded(c, requested))
    decreases c
  {
    forall i | 0 <= i < |NodesOf(c)|
      ensures
        var e := EvalConfig(NodesOf(c)[i], requested);
        && (e.Ok? <==> Evaluates(NodesOf(c)[i], requested))
        && (e.Ok? ==> (e.value.grounded <==> Grounded(NodesOf(c)[i], requested)))
    {
      EvaluatesIff(NodesOf(c)[i], requested);
    }
    EvaluatesHere(c, requested);
  }
}
