/** Sorting findings by key and keeping one per key. */
module CveMerge {
  import opened Ordering
  import opened CveModel
  import opened CveFindings

  /** Lexicographic order on lists of strings. */
  predicate WordsLeq(a: seq<string>, b: seq<string>) {
    a == [] || (b != [] && if a[0] == b[0] then WordsLeq(a[1..], b[1..]) else StrLeq(a[0], b[0]))
  }

  lemma {:induction false} WordsLeqTotal(a: seq<string>, b: seq<string>)
    ensures WordsLeq(a, b) || WordsLeq(b, a)
  {
    if a != [] && b != [] {
      if a[0] == b[0] { WordsLeqTotal(a[1..], b[1..]); } else { StrLeqTotal(a[0], b[0]); }
    }
  }

  lemma {:induction false} WordsLeqTransitive(a: seq<string>, b: seq<string>, c: seq<string>)
    requires WordsLeq(a, b) && WordsLeq(b, c)
    ensures WordsLeq(a, c)
  {
    if a != [] {
      if a[0] == b[0] == c[0] {
        WordsLeqTransitive(a[1..], b[1..], c[1..]);
      } else if a[0] != b[0] && b[0] != c[0] {
        StrLeqTransitive(a[0], b[0], c[0]);
        if a[0] == c[0] { StrLeqAntisymmetric(a[0], b[0]); }
      }
    }
  }

  lemma {:induction false} WordsLeqAntisymmetric(a: seq<string>, b: seq<string>)
    requires WordsLeq(a, b) && WordsLeq(b, a)
    ensures a == b
  {
    if a != [] && b != [] {
      if a[0] == b[0] {
        WordsLeqAntisymmetric(a[1..], b[1..]);
        assert a == [a[0]] + a[1..] && b == [b[0]] + b[1..];
      } else {
        StrLeqAntisymmetric(a[0], b[0]);
      }
    }
  }

  /** The words a key is compared by: its strings, and its identity by kind and then content. */
  function KeyWords(k: FindingKey): seq<string> {
    [k.root, k.advisoryId, k.component] +
    match k.matched
    case Purl(p) => ["0", p, ""]
    case Cpe(c) => ["1", c, ""]
    case Commit(r, c) => ["2", r, c]
    case Nixpkgs(a, v) => ["3", a, v]
  }

  lemma KeyWordsInjective(k: FindingKey, l: FindingKey)
    requires KeyWords(k) == KeyWords(l)
    ensures k == l
  {
    var kw, lw := KeyWords(k), KeyWords(l);
    assert kw[0] == k.root && kw[1] == k.advisoryId && kw[2] == k.component;
    assert lw[0] == l.root && lw[1] == l.advisoryId && lw[2] == l.component;
    assert kw[3] == lw[3] && kw[3][0] == lw[3][0] && kw[4] == lw[4] && kw[5] == lw[5];
  }

  function Kind(m: MatchedIdentity): nat {
    match m
    case Purl(_) => 0
    case Cpe(_) => 1
    case Commit(_, _) => 2
    case Nixpkgs(_, _) => 3
  }

  ghost predicate StrBefore(a: string, b: string) {
    a != b && StrLeq(a, b)
  }

  ghost predicate IdentityBefore(a: MatchedIdentity, b: MatchedIdentity) {
    || Kind(a) < Kind(b)
    || (a.Purl? && b.Purl? && StrBefore(a.purl, b.purl))
    || (a.Cpe? && b.Cpe? && StrBefore(a.cpe, b.cpe))
    || (a.Commit? && b.Commit? &&
        (StrBefore(a.repository, b.repository) || (a.repository == b.repository && StrBefore(a.commit, b.commit))))
    || (a.Nixpkgs? && b.Nixpkgs? &&
        (StrBefore(a.attribute, b.attribute) || (a.attribute == b.attribute && StrBefore(a.version, b.version))))
  }

  /** By root, then advisory, then component, then identity. */
  ghost predicate KeyBefore(k: FindingKey, l: FindingKey) {
    || StrBefore(k.root, l.root)
    || (k.root == l.root && StrBefore(k.advisoryId, l.advisoryId))
    || (k.root == l.root && k.advisoryId == l.advisoryId && StrBefore(k.component, l.component))
    || (k.root == l.root && k.advisoryId == l.advisoryId && k.component == l.component && IdentityBefore(k.matched, l.matched))
  }

  lemma WordsLeqCons(x: string, a: seq<string>, y: string, b: seq<string>)
    ensures WordsLeq([x] + a, [y] + b) <==> if x == y then WordsLeq(a, b) else StrLeq(x, y)
  {
    assert ([x] + a)[1..] == a && ([y] + b)[1..] == b;
  }

  function IdentityWords(m: MatchedIdentity): seq<string> {
    match m
    case Purl(p) => ["0", p, ""]
    case Cpe(c) => ["1", c, ""]
    case Commit(r, c) => ["2", r, c]
    case Nixpkgs(a, v) => ["3", a, v]
  }

  lemma WordsOfThree(a: string, b: string, c: string, x: string, y: string, z: string)
    ensures WordsLeq([a, b, c], [x, y, z]) <==>
      if a != x then StrLeq(a, x) else if b != y then StrLeq(b, y) else StrLeq(c, z)
  {
    assert [a, b, c] == [a] + ([b] + ([c] + [])) && [x, y, z] == [x] + ([y] + ([z] + []));
    WordsLeqCons(a, [b] + ([c] + []), x, [y] + ([z] + []));
    WordsLeqCons(b, [c] + [], y, [z] + []);
    WordsLeqCons(c, [], z, []);
    StrLeqReflexive(c);
  }

  lemma IdentityBeforeIff(m: MatchedIdentity, n: MatchedIdentity)
    requires m != n
    ensures IdentityBefore(m, n) <==> WordsLeq(IdentityWords(m), IdentityWords(n))
  {
    var a, b := IdentityWords(m), IdentityWords(n);
    assert a == [a[0], a[1], a[2]] && b == [b[0], b[1], b[2]];
    WordsOfThree(a[0], a[1], a[2], b[0], b[1], b[2]);
    assert a[0][0] < b[0][0] <==> Kind(m) < Kind(n);
    assert a[0] == b[0] <==> Kind(m) == Kind(n);
    if Kind(m) != Kind(n) { assert |a[0]| == 1 && |b[0]| == 1 && a[0][0] != b[0][0]; }
  }

  /** The order findings are sorted by is this one. */
  lemma KeyBeforeIff(k: FindingKey, l: FindingKey)
    requires k != l
    ensures KeyBefore(k, l) <==> WordsLeq(KeyWords(k), KeyWords(l))
  {
    var a, b := IdentityWords(k.matched), IdentityWords(l.matched);
    assert KeyWords(k) == [k.root] + ([k.advisoryId] + ([k.component] + a));
    assert KeyWords(l) == [l.root] + ([l.advisoryId] + ([l.component] + b));
    WordsLeqCons(k.root, [k.advisoryId] + ([k.component] + a), l.root, [l.advisoryId] + ([l.component] + b));
    WordsLeqCons(k.advisoryId, [k.component] + a, l.advisoryId, [l.component] + b);
    WordsLeqCons(k.component, a, l.component, b);
    if k.matched != l.matched { IdentityBeforeIff(k.matched, l.matched); }
  }

  predicate FindingLeq(a: Finding, b: Finding) {
    WordsLeq(KeyWords(KeyOf(a)), KeyWords(KeyOf(b)))
  }

  lemma FindingLeqPreorder()
    ensures Preorder(FindingLeq)
  {
    forall x, y ensures FindingLeq(x, y) || FindingLeq(y, x) { WordsLeqTotal(KeyWords(KeyOf(x)), KeyWords(KeyOf(y))); }
    forall x, y, z | FindingLeq(x, y) && FindingLeq(y, z) ensures FindingLeq(x, z) {
      WordsLeqTransitive(KeyWords(KeyOf(x)), KeyWords(KeyOf(y)), KeyWords(KeyOf(z)));
    }
  }

  /** Whatever stands between two findings with the same key has that key too. */
  ghost predicate OneGroup(s: seq<Finding>, i: int, k: int) {
    0 <= i <= k < |s| && KeyOf(s[i]) == KeyOf(s[k]) ==> forall j :: i <= j <= k ==> KeyOf(s[j]) == KeyOf(s[i])
  }

  ghost predicate Grouped(s: seq<Finding>) {
    forall i, k :: OneGroup(s, i, k)
  }

  lemma SortedIsGrouped(s: seq<Finding>)
    requires Sorted(s, FindingLeq)
    ensures Grouped(s)
  {
    forall i, k ensures OneGroup(s, i, k) {
      if 0 <= i <= k < |s| && KeyOf(s[i]) == KeyOf(s[k]) {
        forall j | i <= j <= k ensures KeyOf(s[j]) == KeyOf(s[i]) { Between(s, i, j, k); }
      }
    }
  }

  lemma Between(s: seq<Finding>, i: int, j: int, k: int)
    requires Sorted(s, FindingLeq) && 0 <= i <= j <= k < |s| && KeyOf(s[i]) == KeyOf(s[k])
    ensures KeyOf(s[j]) == KeyOf(s[i])
  {
    if i < j < k {
      assert FindingLeq(s[i], s[j]) && FindingLeq(s[j], s[k]);
      WordsLeqAntisymmetric(KeyWords(KeyOf(s[i])), KeyWords(KeyOf(s[j])));
      KeyWordsInjective(KeyOf(s[i]), KeyOf(s[j]));
    }
  }

  ghost predicate HasKey(s: seq<Finding>, k: FindingKey) {
    exists f :: f in s && KeyOf(f) == k
  }

  /** One finding per key, taken from the list, confirmed exactly when some finding with that
      key was. */
  ghost predicate IsMerge(all: seq<Finding>, unique: seq<Finding>) {
    && (forall i, j :: 0 <= i < j < |unique| ==> KeyOf(unique[i]) != KeyOf(unique[j]))
    && (forall u :: u in unique ==> u in all)
    && (forall f :: f in all ==> HasKey(unique, KeyOf(f)))
    && (forall u, f :: u in unique && f in all && KeyOf(f) == KeyOf(u) && f.applicability.Confirmed? ==>
          u.applicability.Confirmed?)
  }

  lemma NewKeyIsNew(all: seq<Finding>, unique: seq<Finding>, i: int)
    requires Grouped(all) && 0 < i < |all| && IsMerge(all[..i], unique) && KeyOf(all[i]) != KeyOf(all[i - 1])
    ensures !HasKey(unique, KeyOf(all[i]))
  {
    forall u | u in unique ensures KeyOf(u) != KeyOf(all[i]) {
      var j :| 0 <= j < i && all[j] == u;
      assert OneGroup(all, j, i) && j <= i - 1 <= i;
    }
  }

  lemma AppendNew(all: seq<Finding>, unique: seq<Finding>, f: Finding)
    requires IsMerge(all, unique) && !HasKey(unique, KeyOf(f))
    ensures IsMerge(all + [f], unique + [f])
  {
    var all', unique' := all + [f], unique + [f];
    forall g | g in all' ensures HasKey(unique', KeyOf(g)) {
      if g in all {
        var u :| u in unique && KeyOf(u) == KeyOf(g);
        assert u in unique';
      } else {
        assert f in unique';
      }
    }
    assert forall g :: g in all ==> KeyOf(g) != KeyOf(f);
  }

  /** A finding whose key is already kept, and which adds no confirmation. */
  lemma SkipKnown(all: seq<Finding>, unique: seq<Finding>, f: Finding, u: Finding)
    requires IsMerge(all, unique) && u in unique && KeyOf(u) == KeyOf(f)
    requires f.applicability.Confirmed? ==> u.applicability.Confirmed?
    ensures IsMerge(all + [f], unique)
  {
    assert HasKey(unique, KeyOf(f));
  }

  /** A confirmed finding takes the place of the last one kept under its key. */
  lemma PromoteLast(all: seq<Finding>, unique: seq<Finding>, f: Finding)
    requires IsMerge(all, unique) && unique != [] && f.applicability.Confirmed?
    requires KeyOf(unique[|unique| - 1]) == KeyOf(f)
    ensures IsMerge(all + [f], unique[..|unique| - 1] + [f])
  {
    var init := unique[..|unique| - 1];
    assert forall u :: u in init ==> u in unique;
    forall g | g in all ensures HasKey(init + [f], KeyOf(g)) {
      var i :| 0 <= i < |unique| && KeyOf(unique[i]) == KeyOf(g);
      assert (init + [f])[i] in init + [f];
    }
    assert f in init + [f];
  }

  /** The first `i` findings are merged, and the last kept has the key of the last seen. */
  ghost predicate Merging(all: seq<Finding>, i: int, unique: seq<Finding>) {
    && 0 <= i <= |all| && IsMerge(all[..i], unique)
    && (i == 0 <==> unique == [])
    && (i > 0 ==> KeyOf(unique[|unique| - 1]) == KeyOf(all[i - 1]))
  }

  lemma MergeNew(all: seq<Finding>, i: int, unique: seq<Finding>)
    requires Grouped(all) && i < |all| && Merging(all, i, unique)
    requires unique != [] ==> KeyOf(unique[|unique| - 1]) != KeyOf(all[i])
    ensures Merging(all, i + 1, unique + [all[i]])
  {
    if i > 0 { NewKeyIsNew(all, unique, i); }
    AppendNew(all[..i], unique, all[i]);
    assert all[..i + 1] == all[..i] + [all[i]];
  }

  lemma MergePromotes(all: seq<Finding>, i: int, unique: seq<Finding>)
    requires i < |all| && Merging(all, i, unique) && unique != []
    requires KeyOf(unique[|unique| - 1]) == KeyOf(all[i]) && all[i].applicability.Confirmed?
    ensures Merging(all, i + 1, unique[..|unique| - 1] + [all[i]])
  {
    PromoteLast(all[..i], unique, all[i]);
    assert all[..i + 1] == all[..i] + [all[i]];
  }

  lemma MergeSkips(all: seq<Finding>, i: int, unique: seq<Finding>)
    requires i < |all| && Merging(all, i, unique) && unique != []
    requires KeyOf(unique[|unique| - 1]) == KeyOf(all[i])
    requires all[i].applicability.Confirmed? ==> unique[|unique| - 1].applicability.Confirmed?
    ensures Merging(all, i + 1, unique)
  {
    SkipKnown(all[..i], unique, all[i], unique[|unique| - 1]);
    assert all[..i + 1] == all[..i] + [all[i]];
  }

  /** What is kept stays in order. */
  lemma AppendSorted(all: seq<Finding>, i: int, unique: seq<Finding>)
    requires Sorted(all, FindingLeq) && 0 <= i < |all| && Sorted(unique, FindingLeq)
    requires forall u :: u in unique ==> u in all[..i]
    ensures Sorted(unique + [all[i]], FindingLeq)
  {
    forall k | 0 <= k < |unique| ensures FindingLeq(unique[k], all[i]) {
      assert unique[k] in all[..i];
      var j :| 0 <= j < i && all[j] == unique[k];
    }
  }

  lemma PromoteSorted(unique: seq<Finding>, f: Finding)
    requires unique != [] && Sorted(unique, FindingLeq) && KeyOf(unique[|unique| - 1]) == KeyOf(f)
    ensures Sorted(unique[..|unique| - 1] + [f], FindingLeq)
  {
    forall k | 0 <= k < |unique| - 1 ensures FindingLeq(unique[k], f) { assert FindingLeq(unique[k], unique[|unique| - 1]); }
  }

  ghost predicate Kept(all: seq<Finding>, i: int, unique: seq<Finding>) {
    Merging(all, i, unique) && Sorted(unique, FindingLeq)
  }

  predicate SameAsLast(unique: seq<Finding>, f: Finding) {
    unique != [] && KeyOf(unique[|unique| - 1]) == KeyOf(f)
  }

  lemma KeepNew(all: seq<Finding>, i: int, unique: seq<Finding>)
    requires Sorted(all, FindingLeq) && i < |all| && Kept(all, i, unique) && !SameAsLast(unique, all[i])
    ensures Kept(all, i + 1, unique + [all[i]])
  {
    SortedIsGrouped(all);
    MergeNew(all, i, unique);
    AppendSorted(all, i, unique);
  }

  lemma KeepPromoted(all: seq<Finding>, i: int, unique: seq<Finding>)
    requires i < |all| && Kept(all, i, unique) && SameAsLast(unique, all[i]) && all[i].applicability.Confirmed?
    ensures Kept(all, i + 1, unique[..|unique| - 1] + [all[i]])
  {
    MergePromotes(all, i, unique);
    PromoteSorted(unique, all[i]);
  }

  lemma KeepSkipped(all: seq<Finding>, i: int, unique: seq<Finding>)
    requires i < |all| && Kept(all, i, unique) && SameAsLast(unique, all[i])
    requires all[i].applicability.Confirmed? ==> unique[|unique| - 1].applicability.Confirmed?
    ensures Kept(all, i + 1, unique)
  {
    MergeSkips(all, i, unique);
  }

  /** One turn of the loop: a new key is kept, a confirmation takes the place of the last. */
  method MergeOne(ghost all: seq<Finding>, ghost i: int, unique: seq<Finding>, f: Finding) returns (after: seq<Finding>)
    requires Sorted(all, FindingLeq) && 0 <= i < |all| && f == all[i] && Kept(all, i, unique)
    ensures Kept(all, i + 1, after)
  {
    if !SameAsLast(unique, f) {
      KeepNew(all, i, unique);
      return unique + [f];
    }
    var existing := unique[|unique| - 1];
    if existing.applicability == UnverifiedOutputScope && f.applicability == Confirmed {
      KeepPromoted(all, i, unique);
      return unique[..|unique| - 1] + [f];
    }
    KeepSkipped(all, i, unique);
    return unique;
  }

  lemma KeptNone(all: seq<Finding>)
    ensures Kept(all, 0, [])
  {
  }

  lemma KeptAll(all: seq<Finding>, unique: seq<Finding>)
    requires Kept(all, |all|, unique)
    ensures IsMerge(all, unique) && Sorted(unique, FindingLeq)
  {
    assert all[..|all|] == all;
  }

  /** The merge loop over the sorted findings. */
  method MergeFindings(all: seq<Finding>) returns (unique: seq<Finding>)
    requires Sorted(all, FindingLeq)
    ensures IsMerge(all, unique) && Sorted(unique, FindingLeq)
  {
    unique := [];
    KeptNone(all);
    for i := 0 to |all|
      invariant Kept(all, i, unique)
    {
      unique := MergeOne(all, i, unique, all[i]);
    }
    KeptAll(all, unique);
  }

  function Assess(statements: seq<VexStatement>, f: Finding): Finding {
    f.(vex := Assessment(statements, f.root, f.matched, f.advisoryId))
  }

  /** Attaching the VEX assessment to every finding, in place. */
  method AssessAll(statements: seq<VexStatement>, findings: seq<Finding>) returns (r: seq<Finding>)
    ensures |r| == |findings| && forall i :: 0 <= i < |r| ==> r[i] == Assess(statements, findings[i])
  {
    r := [];
    for i := 0 to |findings|
      invariant |r| == i && forall j :: 0 <= j < i ==> r[j] == Assess(statements, findings[j])
    {
      r := r + [Assess(statements, findings[i])];
    }
  }

  lemma AssessedSorted(sorted: seq<Finding>, assessed: seq<Finding>)
    requires Sorted(sorted, FindingLeq) && |assessed| == |sorted|
    requires forall i :: 0 <= i < |sorted| ==> KeyOf(assessed[i]) == KeyOf(sorted[i])
    ensures Sorted(assessed, FindingLeq)
  {
    forall i, j | 0 <= i < j < |assessed| ensures FindingLeq(assessed[i], assessed[j]) {
      assert FindingLeq(sorted[i], sorted[j]);
    }
  }

  /** What the merged findings say about the raw ones. */
  ghost predicate IsDigest(statements: seq<VexStatement>, raw: seq<Finding>, unique: seq<Finding>) {
    && (forall i, j :: 0 <= i < j < |unique| ==> KeyOf(unique[i]) != KeyOf(unique[j]))
    && (forall u :: u in unique ==> exists f :: f in raw && u == Assess(statements, f))
    && (forall f :: f in raw ==> HasKey(unique, KeyOf(f)))
    && (forall u, f :: u in unique && f in raw && KeyOf(f) == KeyOf(u) && f.applicability.Confirmed? ==>
          u.applicability.Confirmed?)
  }

  /** Sort, assess, merge: one finding per key raised, with that key's VEX assessment, and
      confirmed exactly when some raw finding with that key was. */
  method Digest(statements: seq<VexStatement>, raw: seq<Finding>) returns (unique: seq<Finding>)
    ensures IsDigest(statements, raw, unique) && Sorted(unique, FindingLeq)
  {
    var sorted := SortBy(raw, FindingLeq);
    FindingLeqPreorder();
    SortBySorts(raw, FindingLeq);
    var assessed := AssessAll(statements, sorted);
    AssessedSorted(sorted, assessed);
    unique := MergeFindings(assessed);
    DigestFromMerge(statements, raw, sorted, assessed, unique);
  }

  lemma DigestFromMerge(statements: seq<VexStatement>, raw: seq<Finding>, sorted: seq<Finding>, assessed: seq<Finding>, unique: seq<Finding>)
    requires forall f :: f in sorted <==> f in raw
    requires |assessed| == |sorted| && forall i :: 0 <= i < |sorted| ==> assessed[i] == Assess(statements, sorted[i])
    requires IsMerge(assessed, unique)
    ensures IsDigest(statements, raw, unique)
  {
    forall u | u in unique ensures exists f :: f in raw && u == Assess(statements, f) {
      var i :| 0 <= i < |assessed| && assessed[i] == u;
      assert sorted[i] in raw;
    }
    forall f | f in raw ensures Assess(statements, f) in assessed {
      var i :| 0 <= i < |sorted| && sorted[i] == f;
      assert assessed[i] == Assess(statements, f);
    }
    forall f | f in raw ensures HasKey(unique, KeyOf(f)) {
      assert HasKey(unique, KeyOf(Assess(statements, f)));
    }
    forall u, f | u in unique && f in raw && KeyOf(f) == KeyOf(u) && f.applicability.Confirmed?
      ensures u.applicability.Confirmed?
    {
      assert Assess(statements, f) in assessed;
    }
  }
}
