/** Canonical order, and when package ids collide. */
module CveCanonical {
  import opened Ordering
  import opened Keyed
  import opened CveModel
  import opened CveMerge
  import opened CveScan
  import opened CveEvidence
  import opened CveReport
  import opened CveProducts

  // --- canonical order ---

  predicate EntryLeq(a: EvidenceEntry, b: EvidenceEntry) { WordsLeq([a.source, a.value], [b.source, b.value]) }

  predicate EdgeLeq(a: DependencyEdge, b: DependencyEdge) { WordsLeq([a.source, a.target], [b.source, b.target]) }

  predicate RootLeq(a: RootEvidence, b: RootEvidence) { StrLeq(a.id, b.id) }

  predicate NodeLeq(a: PackageEvidence, b: PackageEvidence) { StrLeq(a.id, b.id) }

  predicate ProductLeq(a: ProductReport, b: ProductReport) { StrLeq(a.id, b.id) }

  predicate EvidenceLeq(a: FindingEvidence, b: FindingEvidence) {
    WordsLeq([a.advisoryId, a.packageId], [b.advisoryId, b.packageId])
  }

  function CanonicalPackage(p: PackageEvidence): PackageEvidence {
    p.(storePaths := Dedup(SortBy(p.storePaths, StrLeq)), evidence := Dedup(SortBy(p.evidence, EntryLeq)))
  }

  function CanonicalFinding(f: FindingEvidence): FindingEvidence {
    f.(rootPaths := Dedup(SortBy(f.rootPaths, WordsLeq)))
  }

  function CanonicalPackages(s: seq<PackageEvidence>): seq<PackageEvidence> {
    seq(|s|, i requires 0 <= i < |s| => CanonicalPackage(s[i]))
  }

  function CanonicalFindings(s: seq<FindingEvidence>): seq<FindingEvidence> {
    seq(|s|, i requires 0 <= i < |s| => CanonicalFinding(s[i]))
  }

  /** `ProductReport::canonicalize` */
  function Canonical(p: ProductReport): ProductReport {
    p.(roots := SortBy(p.roots, RootLeq),
       packages := CanonicalPackages(SortBy(p.packages, NodeLeq)),
       edges := Dedup(SortBy(p.edges, EdgeLeq)),
       findings := CanonicalFindings(SortBy(p.findings, EvidenceLeq)))
  }

  lemma CanonicalIds(p: ProductReport)
    ensures DistinctBy(Canonical(p).packages, NodeId) <==> DistinctBy(p.packages, NodeId)
    ensures forall id :: Known(Canonical(p), id) <==> Known(p, id)
  {
    var sorted := SortBy(p.packages, NodeLeq);
    SortDistinct(p.packages, NodeLeq, NodeId);
    MapKeepsIds(CanonicalPackages(sorted), sorted, NodeId);
    forall id ensures HasId(sorted, NodeId, id) <==> HasId(p.packages, NodeId, id) {
      SameIds(sorted, p.packages, NodeId, id);
    }
  }

  lemma CanonicalRoots(p: ProductReport)
    ensures DistinctBy(Canonical(p).roots, RootId) <==> DistinctBy(p.roots, RootId)
    ensures forall id :: HasId(Canonical(p).roots, RootId, id) <==> HasId(p.roots, RootId, id)
  {
    SortDistinct(p.roots, RootLeq, RootId);
    forall id ensures HasId(Canonical(p).roots, RootId, id) <==> HasId(p.roots, RootId, id) {
      SameIds(SortBy(p.roots, RootLeq), p.roots, RootId, id);
    }
  }

  /** Two products know the same roots and packages. */
  ghost predicate SameNames(p: ProductReport, q: ProductReport) {
    && (forall id :: Known(p, id) <==> Known(q, id))
    && (forall id :: HasId(p.roots, RootId, id) <==> HasId(q.roots, RootId, id))
  }

  lemma CanonicalFindingKeeps(p: ProductReport, q: ProductReport, f: FindingEvidence)
    requires SameNames(p, q)
    ensures ValidFinding(q, CanonicalFinding(f)) <==> ValidFinding(p, f)
  {
    SameElements(SortBy(f.rootPaths, WordsLeq), f.rootPaths);
    forall path ensures ValidPath(q, path) <==> ValidPath(p, path) {
    }
  }

  lemma CanonicalFindingsKeep(p: ProductReport, q: ProductReport, s: seq<FindingEvidence>)
    requires SameNames(p, q)
    ensures (forall f :: f in CanonicalFindings(SortBy(s, EvidenceLeq)) ==> ValidFinding(q, f)) <==>
      (forall f :: f in s ==> ValidFinding(p, f))
  {
    var sorted := SortBy(s, EvidenceLeq);
    forall i | 0 <= i < |sorted| ensures ValidFinding(q, CanonicalFindings(sorted)[i]) <==> ValidFinding(p, sorted[i]) {
      CanonicalFindingKeeps(p, q, sorted[i]);
    }
    AllKept(s, sorted, CanonicalFindings(sorted), f => ValidFinding(p, f), f => ValidFinding(q, f));
  }

  lemma CanonicalEdgesKeep(p: ProductReport, q: ProductReport, s: seq<DependencyEdge>)
    requires SameNames(p, q)
    ensures (forall e :: e in Dedup(SortBy(s, EdgeLeq)) ==> ValidEdge(q, e)) <==> (forall e :: e in s ==> ValidEdge(p, e))
  {
    SameElements(SortBy(s, EdgeLeq), s);
    assert forall e :: ValidEdge(q, e) <==> ValidEdge(p, e);
  }

  lemma CanonicalReasonsKeep(s: seq<PackageEvidence>)
    ensures (forall x :: x in CanonicalPackages(SortBy(s, NodeLeq)) ==> Reasoned(x)) <==> (forall x :: x in s ==> Reasoned(x))
  {
    var sorted := SortBy(s, NodeLeq);
    AllKept(s, sorted, CanonicalPackages(sorted), Reasoned, Reasoned);
  }

  /** Canonicalising neither repairs nor breaks a product. */
  lemma CanonicalKeepsValidity(p: ProductReport)
    ensures ValidProduct(Canonical(p)) <==> ValidProduct(p)
  {
    var q := Canonical(p);
    CanonicalIds(p);
    CanonicalRoots(p);
    CanonicalFindingsKeep(p, q, p.findings);
    CanonicalEdgesKeep(p, q, p.edges);
    CanonicalReasonsKeep(p.packages);
  }

  function CanonicalProducts(s: seq<ProductReport>): seq<ProductReport> {
    seq(|s|, i requires 0 <= i < |s| => Canonical(s[i]))
  }

  /** `EvidenceReport::canonicalized` */
  function Canonicalized(r: EvidenceReport): EvidenceReport {
    r.(products := CanonicalProducts(SortBy(r.products, ProductLeq)))
  }

  lemma CanonicalizedKeepsValidity(r: EvidenceReport)
    ensures ValidReport(Canonicalized(r)) <==> ValidReport(r)
  {
    var sorted := SortBy(r.products, ProductLeq);
    var done := CanonicalProducts(sorted);
    SortDistinct(r.products, ProductLeq, ProductId);
    MapKeepsIds(done, sorted, ProductId);
    forall i | 0 <= i < |sorted| ensures ValidProduct(done[i]) <==> ValidProduct(sorted[i]) {
      CanonicalKeepsValidity(sorted[i]);
    }
    AllKept(r.products, sorted, done, p => ValidProduct(p), p => ValidProduct(p));
  }

  // --- when package ids collide ---

  ghost predicate Collide(c: Component, d: Component) {
    SharesId(Packages(c.storePath, c.identity), Packages(d.storePath, d.identity), NodeId)
  }

  ghost predicate CollidesWithAny(comps: seq<Component>, d: Component) {
    exists c :: c in comps && Collide(c, d)
  }

  ghost predicate CollisionFree(comps: seq<Component>) {
    forall i, j :: 0 <= i < j < |comps| ==> !Collide(comps[i], comps[j])
  }

  lemma PackagesDistinct(path: string, identity: ComponentIdentity)
    ensures DistinctBy(Packages(path, identity), NodeId)
  {
    if identity.Identified? {
      var merged := MergedByIdentity(path, identity.packages);
      MergedDistinct(path, identity.packages);
      var node := Node(path, NonPackageNode("runtime-store-node"), []);
      forall i | 0 <= i < |merged| ensures NodeId(merged[i]) != path { MergedIdLonger(path, identity.packages, i); }
      DistinctCons(node, merged, NodeId);
    }
  }

  lemma MergedDistinct(path: string, items: seq<EvidencedPackage>)
    ensures DistinctBy(MergedByIdentity(path, items), NodeId)
  {
    var merged := MergedByIdentity(path, items);
    forall i, j | 0 <= i < j < |merged| ensures NodeId(merged[i]) != NodeId(merged[j]) {
      MergedIdsDiffer(path, items, i, j);
    }
  }

  lemma MergedIdsDiffer(path: string, items: seq<EvidencedPackage>, i: int, j: int)
    requires 0 <= i < j < |MergedByIdentity(path, items)|
    ensures MergedByIdentity(path, items)[i].id != MergedByIdentity(path, items)[j].id
  {
    var exacts := Ascending(Exacts(items));
    MergedEntry(path, items, i);
    MergedEntry(path, items, j);
    HashInjective(path, exacts[i], exacts[j]);
  }

  lemma MergedIdLonger(path: string, items: seq<EvidencedPackage>, i: int)
    requires 0 <= i < |MergedByIdentity(path, items)|
    ensures
      var id := MergedByIdentity(path, items)[i].id;
      |id| > |path| && id[..|path|] == path && id[|path|] == '#'
  {
    MergedEntry(path, items, i);
    HashInjective(path, Ascending(Exacts(items))[i], "");
  }

  lemma HashInjective(path: string, e: string, f: string)
    ensures PackageId(path, e) == PackageId(path, f) <==> e == f
    ensures
      var id := PackageId(path, e);
      |id| > |path| && id[..|path|] == path && id[|path|] == '#'
  {
    assert PackageId(path, e)[|path| + 1..] == e && PackageId(path, f)[|path| + 1..] == f;
  }

  lemma InitLast<T>(s: seq<T>)
    requires s != []
    ensures s == s[..|s| - 1] + [s[|s| - 1]]
  {
  }

  /** The ids of a list of components are distinct exactly when no two components collide. */
  lemma {:induction false} DistinctIffCollisionFree(comps: seq<Component>)
    ensures DistinctBy(PackagesOf(comps), NodeId) <==> CollisionFree(comps)
  {
    if comps != [] {
      var n := |comps| - 1;
      InitLast(comps);
      DistinctIffCollisionFree(comps[..n]);
      OneMoreComponent(comps[..n], comps[n], comps);
    }
  }

  lemma OneMoreComponent(comps: seq<Component>, d: Component, all: seq<Component>)
    requires DistinctBy(PackagesOf(comps), NodeId) <==> CollisionFree(comps)
    requires all == comps + [d]
    ensures DistinctBy(PackagesOf(all), NodeId) <==> CollisionFree(all)
  {
    DistinctSnoc(comps, d);
    CollisionFreeSnoc(comps, d);
  }

  lemma DistinctSnoc(comps: seq<Component>, d: Component)
    ensures DistinctBy(PackagesOf(comps + [d]), NodeId) <==> DistinctBy(PackagesOf(comps), NodeId) && !CollidesWithAny(comps, d)
  {
    var a, b := PackagesOf(comps), Packages(d.storePath, d.identity);
    assert (comps + [d])[..|comps|] == comps;
    assert PackagesOf(comps + [d]) == a + b;
    PackagesDistinct(d.storePath, d.identity);
    SharedIdIff(comps, d);
    if DistinctBy(a + b, NodeId) { DistinctParts(a, b, NodeId); }
    if DistinctBy(a, NodeId) && !SharesId(a, b, NodeId) { DistinctJoin(a, b, NodeId); }
  }

  lemma SharedIdIff(comps: seq<Component>, d: Component)
    ensures SharesId(PackagesOf(comps), Packages(d.storePath, d.identity), NodeId) <==> CollidesWithAny(comps, d)
  {
    var b := Packages(d.storePath, d.identity);
    if CollidesWithAny(comps, d) {
      var c :| c in comps && Collide(c, d);
      var id :| HasId(Packages(c.storePath, c.identity), NodeId, id) && HasId(b, NodeId, id);
      ComponentIdKnown(comps, c, id);
    }
    if SharesId(PackagesOf(comps), b, NodeId) {
      var id :| HasId(PackagesOf(comps), NodeId, id) && HasId(b, NodeId, id);
      var p :| p in PackagesOf(comps) && NodeId(p) == id;
      InPackagesOf(comps, p);
      var c :| c in comps && p in Packages(c.storePath, c.identity);
      assert HasId(Packages(c.storePath, c.identity), NodeId, id);
      assert Collide(c, d);
    }
  }

  lemma CollisionFreeSnoc(comps: seq<Component>, d: Component)
    ensures CollisionFree(comps + [d]) <==> CollisionFree(comps) && !CollidesWithAny(comps, d)
  {
    var all := comps + [d];
    if CollisionFree(all) {
      forall i, j | 0 <= i < j < |comps| ensures !Collide(comps[i], comps[j]) { assert !Collide(all[i], all[j]); }
      forall c | c in comps ensures !Collide(c, d) {
        var i :| 0 <= i < |comps| && comps[i] == c;
        assert !Collide(all[i], all[|comps|]);
      }
    }
  }

  // --- how they can ---

  /** The component has a package filed under this identity. */
  ghost predicate HasExact(identity: ComponentIdentity, e: string) {
    identity.Identified? && exists item :: item in identity.packages && FiledAs(item.package, e)
  }

  lemma ExactAtIndex(path: string, items: seq<EvidencedPackage>, e: string)
    requires exists item :: item in items && FiledAs(item.package, e)
    ensures HasId(MergedByIdentity(path, items), NodeId, PackageId(path, e))
  {
    ExactsAre(items, e);
    var exacts := Ascending(Exacts(items));
    var i :| 0 <= i < |exacts| && exacts[i] == e;
    MergedEntry(path, items, i);
    assert MergedByIdentity(path, items)[i] in MergedByIdentity(path, items);
  }

  lemma MergedIdIsExact(path: string, items: seq<EvidencedPackage>, p: PackageEvidence)
    requires p in MergedByIdentity(path, items)
    ensures exists e :: HasExact(Identified(items), e) && p.id == PackageId(path, e)
  {
    var merged, exacts := MergedByIdentity(path, items), Ascending(Exacts(items));
    var i :| 0 <= i < |merged| && merged[i] == p;
    MergedEntry(path, items, i);
    assert exacts[i] in exacts;
    ExactsAre(items, exacts[i]);
    assert HasExact(Identified(items), exacts[i]);
  }

  /** The ids of a component: its store path, and one per exact identity. */
  lemma ComponentIds(path: string, identity: ComponentIdentity, id: string)
    ensures HasId(Packages(path, identity), NodeId, id) <==>
      id == path || exists e :: HasExact(identity, e) && id == PackageId(path, e)
  {
    NodeFirst(path, identity);
    if HasId(Packages(path, identity), NodeId, id) {
      var p :| p in Packages(path, identity) && NodeId(p) == id;
      if identity.Identified? && p in MergedByIdentity(path, identity.packages) {
        MergedIdIsExact(path, identity.packages, p);
      }
    }
    if e :| HasExact(identity, e) && id == PackageId(path, e) {
      ExactAtIndex(path, identity.packages, e);
      LiftMerged(path, identity, id);
    }
  }

  /** The path `q` is `p` followed by "#" and the beginning of one of its identities: all of
      it, or up to where an identity of `q` continues it. */
  ghost predicate SpellsOut(p: string, idp: ComponentIdentity, q: string, idq: ComponentIdentity) {
    exists x :: q == PackageId(p, x) && Continued(idp, idq, x)
  }

  ghost predicate Continued(idp: ComponentIdentity, idq: ComponentIdentity, x: string) {
    HasExact(idp, x) || exists f :: HasExact(idq, f) && HasExact(idp, PackageId(x, f))
  }

  lemma SharedIdCases(p: string, q: string, e: string, f: string)
    requires PackageId(p, e) == PackageId(q, f) && |p| < |q|
    ensures
      var x := q[|p| + 1..];
      q == PackageId(p, x) && e == PackageId(x, f)
  {
    var id, x := PackageId(p, e), q[|p| + 1..];
    assert id[..|q|] == q && id[|q|] == '#' && id[|q| + 1..] == f;
    assert id[..|p|] == p && id[|p|] == '#' && id[|p| + 1..] == e;
    assert q[..|p|] == p && q[|p|] == '#';
    assert q == p + "#" + x;
    assert e == x + "#" + f;
  }

  lemma BothExact(p: string, idp: ComponentIdentity, q: string, idq: ComponentIdentity, e: string, f: string)
    requires p != q && HasExact(idp, e) && HasExact(idq, f) && PackageId(p, e) == PackageId(q, f)
    ensures SpellsOut(p, idp, q, idq) || SpellsOut(q, idq, p, idp)
  {
    HashInjective(p, e, e);
    HashInjective(q, f, f);
    if |p| < |q| {
      SharedIdCases(p, q, e, f);
      assert Continued(idp, idq, q[|p| + 1..]);
    } else if |q| < |p| {
      SharedIdCases(q, p, f, e);
      assert Continued(idq, idp, p[|q| + 1..]);
    }
  }

  lemma SpelledOutShares(p: string, idp: ComponentIdentity, q: string, idq: ComponentIdentity) returns (id: string)
    requires SpellsOut(p, idp, q, idq)
    ensures HasId(Packages(p, idp), NodeId, id) && HasId(Packages(q, idq), NodeId, id)
  {
    var x :| q == PackageId(p, x) && Continued(idp, idq, x);
    if HasExact(idp, x) {
      id := q;
    } else {
      var f :| HasExact(idq, f) && HasExact(idp, PackageId(x, f));
      id := PackageId(q, f);
      assert p + "#" + (x + "#" + f) == (p + "#" + x) + "#" + f;
      assert id == PackageId(p, PackageId(x, f));
    }
    ComponentIds(p, idp, id);
    ComponentIds(q, idq, id);
  }

  lemma SharedIsSpelledOut(p: string, idp: ComponentIdentity, q: string, idq: ComponentIdentity, id: string)
    requires p != q && HasId(Packages(p, idp), NodeId, id) && HasId(Packages(q, idq), NodeId, id)
    ensures SpellsOut(p, idp, q, idq) || SpellsOut(q, idq, p, idp)
  {
    ComponentIds(p, idp, id);
    ComponentIds(q, idq, id);
    if id == p {
      var f :| HasExact(idq, f) && id == PackageId(q, f);
      assert Continued(idq, idp, f);
    } else if id == q {
      var e :| HasExact(idp, e) && id == PackageId(p, e);
      assert Continued(idp, idq, e);
    } else {
      var e :| HasExact(idp, e) && id == PackageId(p, e);
      var f :| HasExact(idq, f) && id == PackageId(q, f);
      BothExact(p, idp, q, idq, e, f);
    }
  }

  /** Two components with different paths share an id exactly when one path spells out an
      identity of the other, in whole or up to an identity of its own. */
  lemma CollideIff(c: Component, d: Component)
    requires c.storePath != d.storePath
    ensures Collide(c, d) <==>
      SpellsOut(c.storePath, c.identity, d.storePath, d.identity) || SpellsOut(d.storePath, d.identity, c.storePath, c.identity)
  {
    if Collide(c, d) {
      var id :| HasId(Packages(c.storePath, c.identity), NodeId, id) && HasId(Packages(d.storePath, d.identity), NodeId, id);
      SharedIsSpelledOut(c.storePath, c.identity, d.storePath, d.identity, id);
    }
    if SpellsOut(c.storePath, c.identity, d.storePath, d.identity) {
      var id := SpelledOutShares(c.storePath, c.identity, d.storePath, d.identity);
    }
    if SpellsOut(d.storePath, d.identity, c.storePath, c.identity) {
      var id := SpelledOutShares(d.storePath, d.identity, c.storePath, c.identity);
    }
  }

  /** The same from the inputs of the scan. */
  ghost predicate Ambiguous(inp: Inputs, p: string, q: string) {
    SpellsOut(p, EffectiveIdentity(inp.identities, p), q, EffectiveIdentity(inp.identities, q))
  }

  ghost predicate ReachesBoth(inp: Inputs, root: string, p: string, q: string) {
    && NixClosure.RootReaches(NixClosure.References(inp.graph), inp.roots, root, p)
    && NixClosure.RootReaches(NixClosure.References(inp.graph), inp.roots, root, q)
  }

  /** No root reaches two paths one of which spells out an identity of the other. */
  ghost predicate Unambiguous(inp: Inputs) {
    forall root, p, q :: ReachesBoth(inp, root, p, q) ==> !Ambiguous(inp, p, q)
  }

  lemma ReachedComponent(inp: Inputs, comps: seq<Component>, root: string, path: string) returns (i: int)
    requires ComponentsOk(inp, comps) && NixClosure.RootReaches(NixClosure.References(inp.graph), inp.roots, root, path)
    ensures
      var r := ReachedFrom(comps, root);
      0 <= i < |r| && r[i].storePath == path && r[i].identity == EffectiveIdentity(inp.identities, path)
  {
    assert InScope(inp, path);
    var c :| c in comps && c.storePath == path;
    assert ComponentOk(inp, c);
    InReachedFrom(comps, root, c);
    i :| 0 <= i < |ReachedFrom(comps, root)| && ReachedFrom(comps, root)[i] == c;
  }

  lemma CollideSymmetric(c: Component, d: Component)
    requires Collide(c, d)
    ensures Collide(d, c)
  {
    var id :| HasId(Packages(c.storePath, c.identity), NodeId, id) && HasId(Packages(d.storePath, d.identity), NodeId, id);
  }

  lemma NotFree(r: seq<Component>, i: int, j: int)
    requires 0 <= i < |r| && 0 <= j < |r| && i != j && Collide(r[i], r[j])
    ensures !CollisionFree(r)
  {
    CollideSymmetric(r[i], r[j]);
  }

  lemma SpelledOutIsLonger(p: string, idp: ComponentIdentity, q: string, idq: ComponentIdentity)
    requires SpellsOut(p, idp, q, idq)
    ensures |p| < |q|
  {
  }

  lemma AmbiguousCollides(inp: Inputs, comps: seq<Component>, root: string, p: string, q: string)
    requires ComponentsOk(inp, comps) && ReachesBoth(inp, root, p, q) && Ambiguous(inp, p, q)
    ensures !CollisionFree(ReachedFrom(comps, root))
  {
    var r := ReachedFrom(comps, root);
    var i := ReachedComponent(inp, comps, root, p);
    var j := ReachedComponent(inp, comps, root, q);
    SpelledOutIsLonger(p, r[i].identity, q, r[j].identity);
    CollideIff(r[i], r[j]);
    NotFree(r, i, j);
  }

  /** The `i`-th reached component, as the inputs have it. */
  lemma ReachedIsInput(inp: Inputs, comps: seq<Component>, root: string, i: int)
    requires ComponentsOk(inp, comps) && 0 <= i < |ReachedFrom(comps, root)|
    ensures
      var c := ReachedFrom(comps, root)[i];
      && NixClosure.RootReaches(NixClosure.References(inp.graph), inp.roots, root, c.storePath)
      && c.identity == EffectiveIdentity(inp.identities, c.storePath)
  {
    InReachedFrom(comps, root, ReachedFrom(comps, root)[i]);
    assert ComponentOk(inp, ReachedFrom(comps, root)[i]);
  }

  /** A product has no colliding components exactly when its root reaches no ambiguous pair. */
  lemma CollisionFreeIff(inp: Inputs, comps: seq<Component>, root: string)
    requires ComponentsOk(inp, comps)
    ensures CollisionFree(ReachedFrom(comps, root)) <==> forall p, q :: ReachesBoth(inp, root, p, q) ==> !Ambiguous(inp, p, q)
  {
    var r := ReachedFrom(comps, root);
    if p, q :| ReachesBoth(inp, root, p, q) && Ambiguous(inp, p, q) {
      AmbiguousCollides(inp, comps, root, p, q);
    }
    if i, j :| 0 <= i < j < |r| && Collide(r[i], r[j]) {
      ReachedDistinct(comps, root);
      ReachedIsInput(inp, comps, root, i);
      ReachedIsInput(inp, comps, root, j);
      CollideIff(r[i], r[j]);
      assert ReachesBoth(inp, root, r[i].storePath, r[j].storePath) && ReachesBoth(inp, root, r[j].storePath, r[i].storePath);
    }
  }

  ghost predicate DistinctPaths(comps: seq<Component>) {
    forall i, j :: 0 <= i < j < |comps| ==> comps[i].storePath != comps[j].storePath
  }

  lemma DistinctPathsSnoc(comps: seq<Component>, c: Component)
    requires DistinctPaths(comps) && forall i :: 0 <= i < |comps| ==> comps[i].storePath != c.storePath
    ensures DistinctPaths(comps + [c])
  {
  }

  lemma {:induction false} ReachedDistinct(comps: seq<Component>, root: string)
    requires DistinctPaths(comps)
    ensures DistinctPaths(ReachedFrom(comps, root))
  {
    if comps != [] {
      var n := |comps| - 1;
      ReachedDistinct(comps[..n], root);
      var init := ReachedFrom(comps[..n], root);
      forall i | 0 <= i < |init| ensures init[i].storePath != comps[n].storePath {
        InReachedFrom(comps[..n], root, init[i]);
        var k :| 0 <= k < n && comps[..n][k] == init[i];
      }
      DistinctPathsSnoc(init, comps[n]);
    }
  }

  ghost predicate HashFree(path: string) {
    forall i :: 0 <= i < |path| ==> path[i] != '#'
  }

  /** Store paths as Nix makes them, without '#', are never ambiguous. */
  lemma HashFreeIsUnambiguous(inp: Inputs)
    requires InputsOk(inp) && forall path :: path in inp.graph ==> HashFree(path)
    ensures Unambiguous(inp)
  {
    forall root, p, q | ReachesBoth(inp, root, p, q) ensures !Ambiguous(inp, p, q) {
      assert q in inp.graph;
      forall x ensures q != PackageId(p, x) { HashInjective(p, x, x); }
    }
  }
}
