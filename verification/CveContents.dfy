/** What an evidence report shows, in terms of the scan's inputs. */
module CveContents {
  import opened Wrappers
  import opened Ordering
  import opened Keyed
  import opened Digraph
  import opened NixClosure
  import opened CveModel
  import opened CveFindings
  import opened CveMerge
  import opened CveScan
  import opened CveEvidence
  import opened CveReport
  import opened CveProducts
  import opened CveCanonical

  ghost predicate Reach(inp: Inputs, root: string, path: string) {
    RootReaches(References(inp.graph), inp.roots, root, path)
  }

  /** The store path has a node with this id: its own, or one for an identity of it. */
  ghost predicate HasNode(inp: Inputs, path: string, id: string) {
    id == path || exists e :: HasExact(EffectiveIdentity(inp.identities, path), e) && id == PackageId(path, e)
  }

  ghost predicate HasNodeBelow(inp: Inputs, root: string, id: string) {
    exists path :: Reach(inp, root, path) && HasNode(inp, path, id)
  }

  /** The package stands for this path, or for an identity of it. */
  ghost predicate StandsFor(inp: Inputs, path: string, identity: ComponentIdentity, x: PackageEvidence) {
    && IsTakenAs(inp.identities, path, identity)
    && (NodeIs(identity, path, x) || (identity.Identified? && PackageIs(identity.packages, path, x)))
  }

  ghost predicate Placed(inp: Inputs, root: string, x: PackageEvidence) {
    exists path, identity :: Reach(inp, root, path) && StandsFor(inp, path, identity, x)
  }

  /** The packages are the nodes of everything the root reaches. */
  ghost predicate ShowsPackages(inp: Inputs, root: string, p: ProductReport) {
    && (forall id :: CveReport.Known(p, id) <==> HasNodeBelow(inp, root, id))
    && (forall x :: x in p.packages ==> Placed(inp, root, x))
  }

  /** The edges are the references between what the root reaches. */
  ghost predicate ShowsEdges(inp: Inputs, root: string, p: ProductReport) {
    forall e: DependencyEdge :: e in p.edges <==> Reach(inp, root, e.source) && Edge(References(inp.graph), e.source, e.target)
  }

  /** The evidence is for this finding: filed under a package of its component, assessed by the
      statement that applies, and explained by a shortest chain from the root. */
  ghost predicate IsFor(inp: Inputs, e: FindingEvidence, key: FindingKey) {
    && e.advisoryId == key.advisoryId && e.matched == key.matched
    && e.packageId != key.component && HasNode(inp, key.component, e.packageId)
    && (var vex := Assessment(inp.vex.statements, key.root, key.matched, key.advisoryId);
        StatusFits(e.status, vex) && e.vexStatement == if vex.Some? then Some(vex.value.id) else None)
    && TitleFits(inp.snapshot.advisories, e)
    && key.root in inp.roots
    && |e.rootPaths| == 1 && ChainShown(inp, e.rootPaths[0], key)
  }

  /** The root, and then a shortest chain from its path to the component. */
  ghost predicate ChainShown(inp: Inputs, path: seq<string>, key: FindingKey)
    requires key.root in inp.roots
  {
    && path != [] && path[0] == key.root
    && ShortestChain(References(inp.graph), inp.roots[key.root].path, key.component, path[1..])
  }

  /** Affected, unless a statement says otherwise. */
  ghost predicate StatusFits(status: FindingStatus, vex: Option<VexStatement>) {
    && (status.NotAffectedFinding? <==> vex.Some? && vex.value.status.NotAffected?)
    && (status.FixedFinding? <==> vex.Some? && vex.value.status.Fixed?)
    && (status.InvestigatedFinding? <==> vex.Some? && vex.value.status.UnderInvestigation?)
  }

  /** The summary of the advisory, or its id when it has none. */
  ghost predicate TitleFits(advisories: seq<Advisory>, e: FindingEvidence) {
    || (exists a :: a in advisories && a.id == e.advisoryId && TitledBy(a, e))
    || (&& (forall a :: a in advisories ==> a.id != e.advisoryId)
        && e.title == "declared by nixpkgs meta.knownVulnerabilities")
  }

  ghost predicate TitledBy(a: Advisory, e: FindingEvidence) {
    e.title == if a.summary.Some? then a.summary.value else a.id
  }

  lemma TitleOf(advisories: seq<Advisory>, f: Finding, packageId: string)
    requires Described(advisories, f)
    ensures TitleFits(advisories, FindingEvidenceOf(f, packageId))
  {
    if a :| a in advisories && DescribedBy(a, f) { assert TitledBy(a, FindingEvidenceOf(f, packageId)); }
  }

  ghost predicate ExposedAtAll(inp: Inputs, key: FindingKey) {
    exists app :: Exposed(inp, key, app)
  }

  /** The findings are the exposures of the root, each with its evidence. */
  ghost predicate ShowsFindings(inp: Inputs, root: string, findings: seq<FindingEvidence>) {
    && (forall e :: e in findings ==> exists key: FindingKey :: key.root == root && ExposedAtAll(inp, key) && IsFor(inp, e, key))
    && (forall key: FindingKey :: key.root == root && ExposedAtAll(inp, key) ==> exists e :: e in findings && IsFor(inp, e, key))
  }

  ghost predicate ShowsProduct(inp: Inputs, root: string, p: ProductReport) {
    && p.id == root && root in inp.roots
    && p.roots == [RootEvidence(root, inp.roots[root].attr, inp.roots[root].path)]
    && ShowsPackages(inp, root, p) && ShowsEdges(inp, root, p) && ShowsFindings(inp, root, p.findings)
  }

  /** One product per root, each showing what the inputs imply for it. */
  ghost predicate Shows(inp: Inputs, r: EvidenceReport) {
    && DistinctBy(r.products, ProductId)
    && (forall root :: root in inp.roots <==> HasId(r.products, ProductId, root))
    && (forall p :: p in r.products ==> ShowsProduct(inp, p.id, p))
  }

  // --- one product ---

  lemma PackagesShown(inp: Inputs, scan: ScanReport, root: string, id: string)
    requires ComponentsOk(inp, scan.components)
    ensures HasId(PackagesOf(ReachedFrom(scan.components, root)), NodeId, id) <==> HasNodeBelow(inp, root, id)
  {
    var reached := ReachedFrom(scan.components, root);
    if HasId(PackagesOf(reached), NodeId, id) {
      var x :| x in PackagesOf(reached) && NodeId(x) == id;
      InPackagesOf(reached, x);
      var c :| c in reached && x in Packages(c.storePath, c.identity);
      InReachedFrom(scan.components, root, c);
      assert ComponentOk(inp, c);
      ComponentIds(c.storePath, c.identity, id);
      assert Reach(inp, root, c.storePath);
    }
    if HasNodeBelow(inp, root, id) {
      var path :| Reach(inp, root, path) && HasNode(inp, path, id);
      var i := ReachedComponent(inp, scan.components, root, path);
      ComponentIds(path, reached[i].identity, id);
      ComponentIdKnown(reached, reached[i], id);
    }
  }

  lemma PackagePlaced(inp: Inputs, scan: ScanReport, root: string, x: PackageEvidence)
    requires ComponentsOk(inp, scan.components) && x in PackagesOf(ReachedFrom(scan.components, root))
    ensures Placed(inp, root, x)
  {
    var reached := ReachedFrom(scan.components, root);
    InPackagesOf(reached, x);
    var c :| c in reached && x in Packages(c.storePath, c.identity);
    InReachedFrom(scan.components, root, c);
    assert ComponentOk(inp, c);
    PackagesAre(c.storePath, c.identity, x);
    assert Reach(inp, root, c.storePath) && StandsFor(inp, c.storePath, c.identity, x);
  }

  lemma ReachedLists(inp: Inputs, scan: ScanReport, root: string, path: string)
    requires ComponentsOk(inp, scan.components)
    ensures path in StorePaths(ReachedFrom(scan.components, root)) <==> Reach(inp, root, path)
  {
    var reached := ReachedFrom(scan.components, root);
    InStorePaths(reached, path);
    if path in StorePaths(reached) {
      var c :| c in reached && c.storePath == path;
      InReachedFrom(scan.components, root, c);
      assert ComponentOk(inp, c);
    }
    if Reach(inp, root, path) {
      var i := ReachedComponent(inp, scan.components, root, path);
      assert reached[i] in reached;
    }
  }

  lemma ReachOn(inp: Inputs, root: string, a: string, b: string)
    requires Reach(inp, root, a) && Edge(References(inp.graph), a, b)
    ensures Reach(inp, root, b)
  {
    ReachesStep(References(inp.graph), inp.roots[root].path, a, b);
  }

  lemma EdgesShown(inp: Inputs, scan: ScanReport, root: string, e: DependencyEdge)
    requires ComponentsOk(inp, scan.components)
    ensures
      var reached := ReachedFrom(scan.components, root);
      e in EdgesOf(reached, StorePaths(reached)) <==>
      Reach(inp, root, e.source) && Edge(References(inp.graph), e.source, e.target)
  {
    var reached := ReachedFrom(scan.components, root);
    InEdgesOf(reached, StorePaths(reached), e);
    if e in EdgesOf(reached, StorePaths(reached)) {
      var c :| c in reached && e in EdgesFrom(c.storePath, c.references, StorePaths(reached));
      InEdgesFrom(c.storePath, c.references, StorePaths(reached), e);
      InReachedFrom(scan.components, root, c);
      assert ComponentOk(inp, c);
    }
    if Reach(inp, root, e.source) && Edge(References(inp.graph), e.source, e.target) {
      ReachOn(inp, root, e.source, e.target);
      ReachedLists(inp, scan, root, e.target);
      var i := ReachedComponent(inp, scan.components, root, e.source);
      InReachedFrom(scan.components, root, reached[i]);
      assert ComponentOk(inp, reached[i]);
      InEdgesFrom(reached[i].storePath, reached[i].references, StorePaths(reached), e);
    }
  }

  /** The package a finding is filed under belongs to an identity of its component. */
  lemma FiledUnderNode(inp: Inputs, scan: ScanReport, f: Finding)
    requires ComponentsOk(inp, scan.components) && FindingOk(inp, f)
    ensures
      var id := PackageIdOf(scan.components, f);
      id.Some? && id.value != f.component && HasNode(inp, f.component, id.value)
  {
    FindingLocated(inp, scan, f);
    var c := FindComponent(scan.components, f.component).value;
    assert ComponentOk(inp, c);
    var item := FindPackage(c.identity.packages, f.matched).value;
    FiledAsIff(item.package, ExactIdentity(item.package).value);
    assert HasExact(c.identity, ExactIdentity(item.package).value);
  }

  lemma FindingShown(inp: Inputs, scan: ScanReport, f: Finding)
    requires ComponentsOk(inp, scan.components) && FindingOk(inp, f) && PackageIdOf(scan.components, f).Some?
    ensures IsFor(inp, FindingEvidenceOf(f, PackageIdOf(scan.components, f).value), KeyOf(f)) && ExposedAtAll(inp, KeyOf(f))
  {
    FiledUnderNode(inp, scan, f);
    TitleOf(inp.snapshot.advisories, f, PackageIdOf(scan.components, f).value);
    PathShown(inp, f);
  }

  lemma PathShown(inp: Inputs, f: Finding)
    requires FindingOk(inp, f)
    ensures ChainShown(inp, [f.root] + f.path, KeyOf(f))
  {
    assert ([f.root] + f.path)[1..] == f.path;
  }

  lemma FindingsShown(inp: Inputs, scan: ScanReport, root: string)
    requires IsScan(inp, scan) && Locatable(scan.components, scan.findings)
    ensures ShowsFindings(inp, root, FindingsOf(scan.components, scan.findings, root))
  {
    var shown := FindingsOf(scan.components, scan.findings, root);
    forall e | e in shown ensures exists key: FindingKey :: key.root == root && ExposedAtAll(inp, key) && IsFor(inp, e, key) {
      InFindingsOf(scan.components, scan.findings, root, e);
      var f :| f in scan.findings && f.root == root && e == FindingEvidenceOf(f, PackageIdOf(scan.components, f).value);
      FindingShown(inp, scan, f);
    }
    forall key: FindingKey | key.root == root && ExposedAtAll(inp, key) ensures exists e :: e in shown && IsFor(inp, e, key) {
      var f :| f in scan.findings && KeyOf(f) == key;
      var e := FindingEvidenceOf(f, PackageIdOf(scan.components, f).value);
      FindingShown(inp, scan, f);
      InFindingsOf(scan.components, scan.findings, root, e);
    }
  }

  lemma ProductShown(inp: Inputs, scan: ScanReport, root: string)
    requires IsScan(inp, scan) && root in scan.roots && Locatable(scan.components, scan.findings)
    ensures ShowsProduct(inp, root, Product(scan, root))
  {
    var p := Product(scan, root);
    forall id ensures CveReport.Known(p, id) <==> HasNodeBelow(inp, root, id) { PackagesShown(inp, scan, root, id); }
    forall x | x in p.packages ensures Placed(inp, root, x) { PackagePlaced(inp, scan, root, x); }
    forall e: DependencyEdge
      ensures e in p.edges <==> Reach(inp, root, e.source) && Edge(References(inp.graph), e.source, e.target)
    {
      EdgesShown(inp, scan, root, e);
    }
    FindingsShown(inp, scan, root);
  }

  // --- canonicalised ---

  lemma OnePathStays(f: FindingEvidence)
    requires |f.rootPaths| == 1
    ensures CanonicalFinding(f) == f
  {
    var path := f.rootPaths[0];
    assert f.rootPaths == [path] && f.rootPaths[1..] == [];
    assert SortBy([path], WordsLeq) == [path];
  }

  lemma {:induction false} CanonicalFindingsStay(s: seq<FindingEvidence>)
    requires forall f :: f in s ==> |f.rootPaths| == 1
    ensures CanonicalFindings(s) == s
  {
    forall i | 0 <= i < |s| ensures CanonicalFindings(s)[i] == s[i] {
      assert s[i] in s;
      OnePathStays(s[i]);
    }
  }

  lemma OneRootStays(r: RootEvidence)
    ensures SortBy([r], RootLeq) == [r]
  {
    assert [r][1..] == [];
  }

  lemma CanonicalFindingsShow(inp: Inputs, root: string, s: seq<FindingEvidence>)
    requires ShowsFindings(inp, root, s)
    ensures ShowsFindings(inp, root, CanonicalFindings(SortBy(s, EvidenceLeq)))
  {
    var sorted := SortBy(s, EvidenceLeq);
    SameElements(sorted, s);
    CanonicalFindingsStay(sorted);
  }

  lemma CanonicalEdgesShow(inp: Inputs, root: string, p: ProductReport)
    requires ShowsEdges(inp, root, p)
    ensures ShowsEdges(inp, root, Canonical(p))
  {
    SameElements(SortBy(p.edges, EdgeLeq), p.edges);
  }

  lemma OneStays<T(!new)>(x: T, leq: (T, T) -> bool)
    ensures Dedup(SortBy([x], leq)) == [x]
  {
    assert [x][1..] == [];
  }

  lemma CanonicalPackageIs(identity: ComponentIdentity, path: string, x: PackageEvidence)
    ensures NodeIs(identity, path, x) ==> NodeIs(identity, path, CanonicalPackage(x))
    ensures identity.Identified? && PackageIs(identity.packages, path, x) ==>
      PackageIs(identity.packages, path, CanonicalPackage(x))
  {
    OneStays(path, StrLeq);
    SameElements(SortBy(x.evidence, EntryLeq), x.evidence);
    if |x.evidence| == 1 { assert x.evidence == [x.evidence[0]]; OneStays(x.evidence[0], EntryLeq); }
    if identity.Identified? && PackageIs(identity.packages, path, x) {
      var j :| FirstFiled(identity.packages, x.exactIdentity, j) && NamedAfter(identity.packages[j].package, x);
      assert NamedAfter(identity.packages[j].package, CanonicalPackage(x));
    }
  }

  lemma CanonicalPlaced(inp: Inputs, root: string, x: PackageEvidence)
    requires Placed(inp, root, x)
    ensures Placed(inp, root, CanonicalPackage(x))
  {
    var path, identity :| Reach(inp, root, path) && StandsFor(inp, path, identity, x);
    CanonicalPackageIs(identity, path, x);
    assert StandsFor(inp, path, identity, CanonicalPackage(x));
  }

  lemma CanonicalPackagesShow(inp: Inputs, root: string, p: ProductReport)
    requires ShowsPackages(inp, root, p)
    ensures ShowsPackages(inp, root, Canonical(p))
  {
    CanonicalIds(p);
    var sorted := SortBy(p.packages, NodeLeq);
    SameElements(sorted, p.packages);
    forall x | x in Canonical(p).packages ensures Placed(inp, root, x) {
      var i :| 0 <= i < |sorted| && CanonicalPackages(sorted)[i] == x;
      assert sorted[i] in sorted;
      CanonicalPlaced(inp, root, sorted[i]);
    }
  }

  /** Canonicalising changes nothing a product shows. */
  lemma CanonicalShows(inp: Inputs, root: string, p: ProductReport)
    requires ShowsProduct(inp, root, p)
    ensures ShowsProduct(inp, root, Canonical(p))
  {
    CanonicalPackagesShow(inp, root, p);
    CanonicalEdgesShow(inp, root, p);
    CanonicalFindingsShow(inp, root, p.findings);
    OneRootStays(p.roots[0]);
  }

  /** One product per root, in key order. */
  ghost predicate ProductsFor(scan: ScanReport, names: seq<string>, products: seq<ProductReport>)
    requires Locatable(scan.components, scan.findings)
  {
    && |products| == |names|
    && forall i :: 0 <= i < |names| ==> names[i] in scan.roots && products[i] == Product(scan, names[i])
  }

  lemma ProductIdsAreRoots(scan: ScanReport, names: seq<string>, products: seq<ProductReport>)
    requires Locatable(scan.components, scan.findings) && ProductsFor(scan, names, products)
    requires NoDup(names) && forall k :: k in names <==> k in scan.roots
    ensures DistinctBy(products, ProductId) && forall root :: root in scan.roots <==> HasId(products, ProductId, root)
  {
    forall root ensures root in scan.roots <==> HasId(products, ProductId, root) {
      if root in scan.roots {
        var i :| 0 <= i < |names| && names[i] == root;
        assert products[i] in products;
      }
    }
  }

  lemma SortedIdsStay(s: seq<ProductReport>)
    ensures
      var r := CanonicalProducts(SortBy(s, ProductLeq));
      && (DistinctBy(r, ProductId) <==> DistinctBy(s, ProductId))
      && (forall root :: HasId(r, ProductId, root) <==> HasId(s, ProductId, root))
  {
    var sorted := SortBy(s, ProductLeq);
    SortDistinct(s, ProductLeq, ProductId);
    MapKeepsIds(CanonicalProducts(sorted), sorted, ProductId);
    forall root ensures HasId(sorted, ProductId, root) <==> HasId(s, ProductId, root) {
      SameIds(sorted, s, ProductId, root);
    }
  }

  lemma BuiltShows(inp: Inputs, scan: ScanReport, names: seq<string>, products: seq<ProductReport>, p: ProductReport)
    requires IsScan(inp, scan) && Locatable(scan.components, scan.findings) && ProductsFor(scan, names, products)
    requires p in products
    ensures ShowsProduct(inp, p.id, Canonical(p))
  {
    var j :| 0 <= j < |products| && products[j] == p;
    ProductShown(inp, scan, names[j]);
    CanonicalShows(inp, names[j], p);
  }

  lemma ProductsShown(inp: Inputs, scan: ScanReport, names: seq<string>, products: seq<ProductReport>)
    requires IsScan(inp, scan) && Locatable(scan.components, scan.findings) && ProductsFor(scan, names, products)
    ensures forall p :: p in CanonicalProducts(SortBy(products, ProductLeq)) ==> ShowsProduct(inp, p.id, p)
  {
    var sorted := SortBy(products, ProductLeq);
    SameElements(sorted, products);
    forall i | 0 <= i < |sorted| ensures ShowsProduct(inp, sorted[i].id, Canonical(sorted[i])) {
      assert sorted[i] in sorted;
      BuiltShows(inp, scan, names, products, sorted[i]);
    }
  }

  /** The report built from a scan shows exactly what the scan's inputs imply. */
  lemma ReportShows(inp: Inputs, scan: ScanReport, names: seq<string>, report: EvidenceReport)
    requires IsScan(inp, scan) && Locatable(scan.components, scan.findings) && ProductsFor(scan, names, report.products)
    requires NoDup(names) && forall k :: k in names <==> k in scan.roots
    ensures Shows(inp, Canonicalized(report))
  {
    ProductIdsAreRoots(scan, names, report.products);
    SortedIdsStay(report.products);
    ProductsShown(inp, scan, names, report.products);
  }
}
