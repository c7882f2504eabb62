/** From a finished scan to a valid evidence report. */
module CveProducts {
  import opened Wrappers
  import opened Ordering
  import opened Keyed
  import opened Digraph
  import opened NixClosure
  import opened CveModel
  import opened CveFindings
  import opened CveScan
  import opened CveEvidence
  import opened CveReport

  // --- one product ---

  /** The components the root reaches. */
  function ReachedFrom(comps: seq<Component>, root: string): seq<Component> {
    if comps == [] then []
    else
      var n := |comps| - 1;
      ReachedFrom(comps[..n], root) + (if root in comps[n].reachableFrom then [comps[n]] else [])
  }

  lemma {:induction false} InReachedFrom(comps: seq<Component>, root: string, c: Component)
    ensures c in ReachedFrom(comps, root) <==> c in comps && root in c.reachableFrom
  {
    if comps != [] {
      var n := |comps| - 1;
      assert comps == comps[..n] + [comps[n]];
      InReachedFrom(comps[..n], root, c);
    }
  }

  function PackagesOf(comps: seq<Component>): seq<PackageEvidence> {
    if comps == [] then []
    else
      var n := |comps| - 1;
      PackagesOf(comps[..n]) + Packages(comps[n].storePath, comps[n].identity)
  }

  lemma {:induction false} InPackagesOf(comps: seq<Component>, p: PackageEvidence)
    ensures p in PackagesOf(comps) <==> exists c :: c in comps && p in Packages(c.storePath, c.identity)
  {
    if comps != [] {
      var n := |comps| - 1;
      assert comps == comps[..n] + [comps[n]];
      InPackagesOf(comps[..n], p);
    }
  }

  function StorePaths(comps: seq<Component>): set<string> {
    if comps == [] then {}
    else
      var n := |comps| - 1;
      StorePaths(comps[..n]) + {comps[n].storePath}
  }

  lemma {:induction false} InStorePaths(comps: seq<Component>, path: string)
    ensures path in StorePaths(comps) <==> Lists(comps, path)
  {
    if comps != [] {
      var n := |comps| - 1;
      assert comps == comps[..n] + [comps[n]];
      InStorePaths(comps[..n], path);
    }
  }

  function EdgesFrom(path: string, references: seq<string>, reached: set<string>): seq<DependencyEdge> {
    if references == [] then []
    else
      var n := |references| - 1;
      EdgesFrom(path, references[..n], reached) + (if references[n] in reached then [DependencyEdge(path, references[n])] else [])
  }

  lemma {:induction false} InEdgesFrom(path: string, references: seq<string>, reached: set<string>, e: DependencyEdge)
    ensures e in EdgesFrom(path, references, reached) <==> e.source == path && e.target in references && e.target in reached
  {
    if references != [] {
      var n := |references| - 1;
      assert references == references[..n] + [references[n]];
      InEdgesFrom(path, references[..n], reached, e);
    }
  }

  function EdgesOf(comps: seq<Component>, reached: set<string>): seq<DependencyEdge> {
    if comps == [] then []
    else
      var n := |comps| - 1;
      EdgesOf(comps[..n], reached) + EdgesFrom(comps[n].storePath, comps[n].references, reached)
  }

  lemma {:induction false} InEdgesOf(comps: seq<Component>, reached: set<string>, e: DependencyEdge)
    ensures e in EdgesOf(comps, reached) <==> exists c :: c in comps && e in EdgesFrom(c.storePath, c.references, reached)
  {
    if comps != [] {
      var n := |comps| - 1;
      assert comps == comps[..n] + [comps[n]];
      InEdgesOf(comps[..n], reached, e);
    }
  }

  function FindComponent(comps: seq<Component>, path: string): (r: Option<Component>)
    ensures r.Some? ==> r.value in comps && r.value.storePath == path
    ensures r.None? ==> !Lists(comps, path)
  {
    if comps == [] then None
    else if comps[0].storePath == path then Some(comps[0])
    else FindComponent(comps[1..], path)
  }

  /** `matched_package` */
  predicate Carries(package: PackageIdentity, m: MatchedIdentity) {
    Matches(package, m).Some?
  }

  function FindPackage(items: seq<EvidencedPackage>, m: MatchedIdentity): (r: Option<EvidencedPackage>)
    ensures r.Some? ==> r.value in items && Carries(r.value.package, m)
    ensures r.None? ==> forall x :: x in items ==> !Carries(x.package, m)
  {
    if items == [] then None
    else if Carries(items[0].package, m) then Some(items[0])
    else FindPackage(items[1..], m)
  }

  /** The package a finding is filed under. Three ways to have none, each fatal to the program. */
  function PackageIdOf(comps: seq<Component>, f: Finding): Option<string> {
    var c := FindComponent(comps, f.component);
    if c.None? || !c.value.identity.Identified? then None
    else
      var item := FindPackage(c.value.identity.packages, f.matched);
      if item.None? || ExactIdentity(item.value.package).None? then None
      else Some(PackageId(f.component, ExactIdentity(item.value.package).value))
  }

  function StatusOfFinding(vex: Option<VexStatement>): FindingStatus {
    if vex.None? then AffectedFinding
    else match vex.value.status
      case Affected => AffectedFinding
      case NotAffected => NotAffectedFinding
      case Fixed => FixedFinding
      case UnderInvestigation => InvestigatedFinding
  }

  function FindingEvidenceOf(f: Finding, packageId: string): FindingEvidence {
    FindingEvidence(f.advisoryId, packageId, f.matched, if f.summary.Some? then f.summary.value else f.advisoryId,
                    StatusOfFinding(f.vex), [[f.root] + f.path], if f.vex.Some? then Some(f.vex.value.id) else None)
  }

  ghost predicate Locatable(comps: seq<Component>, findings: seq<Finding>) {
    forall f :: f in findings ==> PackageIdOf(comps, f).Some?
  }

  function FindingsOf(comps: seq<Component>, findings: seq<Finding>, root: string): seq<FindingEvidence>
    requires Locatable(comps, findings)
  {
    if findings == [] then []
    else
      var n := |findings| - 1;
      FindingsOf(comps, findings[..n], root) +
      (if findings[n].root == root then [FindingEvidenceOf(findings[n], PackageIdOf(comps, findings[n]).value)] else [])
  }

  lemma {:induction false} InFindingsOf(comps: seq<Component>, findings: seq<Finding>, root: string, e: FindingEvidence)
    requires Locatable(comps, findings)
    ensures e in FindingsOf(comps, findings, root) <==>
      exists f :: f in findings && f.root == root && e == FindingEvidenceOf(f, PackageIdOf(comps, f).value)
  {
    if findings != [] {
      var n := |findings| - 1;
      assert findings == findings[..n] + [findings[n]];
      InFindingsOf(comps, findings[..n], root, e);
    }
  }

  function Product(scan: ScanReport, root: string): ProductReport
    requires root in scan.roots && Locatable(scan.components, scan.findings)
  {
    var reached := ReachedFrom(scan.components, root);
    ProductReport(root, [RootEvidence(root, scan.roots[root].attr, scan.roots[root].path)], PackagesOf(reached),
                  EdgesOf(reached, StorePaths(reached)), FindingsOf(scan.components, scan.findings, root))
  }

  // --- every product of a scan is well linked ---

  lemma ValidIsUsable(inp: Inputs, c: Component)
    requires ComponentOk(inp, c)
    ensures Usable(c.identity)
  {
    if c.identity.Identified? {
      forall x | x in c.identity.packages ensures ExactIdentity(x.package).Some? {
        assert ValidPackage(x.package);
      }
    }
  }

  lemma MergedHasId(path: string, items: seq<EvidencedPackage>, item: EvidencedPackage)
    requires item in items && ExactIdentity(item.package).Some?
    ensures HasId(MergedByIdentity(path, items), NodeId, PackageId(path, ExactIdentity(item.package).value))
  {
    var e := ExactIdentity(item.package).value;
    ItemFiled(items, item);
    var exacts := Ascending(Exacts(items));
    var i :| 0 <= i < |exacts| && exacts[i] == e;
    MergedEntry(path, items, i);
    assert MergedByIdentity(path, items)[i] in MergedByIdentity(path, items);
  }

  /** The first package of a component stands for the store path itself. */
  lemma NodeFirst(path: string, identity: ComponentIdentity)
    ensures HasId(Packages(path, identity), NodeId, path)
  {
    assert Packages(path, identity)[0] in Packages(path, identity);
  }

  lemma ComponentIdKnown(comps: seq<Component>, c: Component, id: string)
    requires c in comps && HasId(Packages(c.storePath, c.identity), NodeId, id)
    ensures HasId(PackagesOf(comps), NodeId, id)
  {
    var p :| p in Packages(c.storePath, c.identity) && NodeId(p) == id;
    InPackagesOf(comps, p);
  }

  /** Whatever the root reaches has a node in the root's product. */
  lemma ReachedKnown(inp: Inputs, r: ScanReport, root: string, path: string)
    requires ComponentsOk(inp, r.components) && RootReaches(References(inp.graph), inp.roots, root, path)
    ensures HasId(PackagesOf(ReachedFrom(r.components, root)), NodeId, path)
  {
    assert InScope(inp, path);
    var c :| c in r.components && c.storePath == path;
    assert ComponentOk(inp, c);
    NodeFirst(path, c.identity);
    InReachedFrom(r.components, root, c);
    ComponentIdKnown(ReachedFrom(r.components, root), c, path);
  }

  lemma RaisedCarries(advisories: seq<Advisory>, item: EvidencedPackage, id: string, m: MatchedIdentity, app: Applicability)
    requires Raises(advisories, item, id, m, app)
    ensures Carries(item.package, m)
  {
    MatchesIff(item.package, m, m);
  }

  lemma RaisedIsCarried(advisories: seq<Advisory>, identity: ComponentIdentity, id: string, m: MatchedIdentity, app: Applicability)
    returns (item: EvidencedPackage)
    requires Raised(advisories, identity, id, m, app)
    ensures item in identity.packages && Carries(item.package, m)
  {
    item :| item in identity.packages && Raises(advisories, item, id, m, app);
    RaisedCarries(advisories, item, id, m, app);
  }

  lemma FiledUnder(comps: seq<Component>, c: Component, f: Finding, item: EvidencedPackage) returns (found: EvidencedPackage)
    requires FindComponent(comps, f.component) == Some(c) && c.identity.Identified? && Usable(c.identity)
    requires item in c.identity.packages && Carries(item.package, f.matched)
    ensures found in c.identity.packages && ExactIdentity(found.package).Some?
    ensures PackageIdOf(comps, f) == Some(PackageId(c.storePath, ExactIdentity(found.package).value))
  {
    found := FindPackage(c.identity.packages, f.matched).value;
  }

  lemma LocatedIn(comps: seq<Component>, c: Component, f: Finding, item: EvidencedPackage)
    requires FindComponent(comps, f.component) == Some(c) && f.root in c.reachableFrom
    requires c.identity.Identified? && Usable(c.identity)
    requires item in c.identity.packages && Carries(item.package, f.matched)
    ensures PackageIdOf(comps, f).Some?
    ensures HasId(PackagesOf(ReachedFrom(comps, f.root)), NodeId, PackageIdOf(comps, f).value)
  {
    var found := FiledUnder(comps, c, f, item);
    var id := PackageId(c.storePath, ExactIdentity(found.package).value);
    InReachedFrom(comps, f.root, c);
    MergedHasId(c.storePath, c.identity.packages, found);
    LiftMerged(c.storePath, c.identity, id);
    ComponentIdKnown(ReachedFrom(comps, f.root), c, id);
  }

  /** Filing a finding never fails, and files it under a package of the finding's component. */
  lemma FindingLocated(inp: Inputs, r: ScanReport, f: Finding)
    requires ComponentsOk(inp, r.components) && FindingOk(inp, f)
    ensures PackageIdOf(r.components, f).Some?
    ensures HasId(PackagesOf(ReachedFrom(r.components, f.root)), NodeId, PackageIdOf(r.components, f).value)
  {
    assert InScope(inp, f.component);
    var c := FindComponent(r.components, f.component).value;
    assert ComponentOk(inp, c);
    var item := RaisedIsCarried(inp.snapshot.advisories, c.identity, f.advisoryId, f.matched, f.applicability);
    ValidIsUsable(inp, c);
    LocatedIn(r.components, c, f, item);
  }

  lemma LiftMerged(path: string, identity: ComponentIdentity, id: string)
    requires identity.Identified? && HasId(MergedByIdentity(path, identity.packages), NodeId, id)
    ensures HasId(Packages(path, identity), NodeId, id)
  {
    var p :| p in MergedByIdentity(path, identity.packages) && NodeId(p) == id;
    assert p in Packages(path, identity);
  }

  lemma AllLocatable(inp: Inputs, r: ScanReport)
    requires IsScan(inp, r)
    ensures Locatable(r.components, r.findings)
  {
    forall f | f in r.findings ensures PackageIdOf(r.components, f).Some? {
      assert FindingOk(inp, f);
      FindingLocated(inp, r, f);
    }
  }

  lemma ChainReached(g: Graph, roots: SecurityRoots, root: string, component: string, chain: seq<string>, i: int)
    requires ChainOk(g, roots, root, component, chain) && 0 <= i < |chain|
    ensures RootReaches(g, roots, root, chain[i])
  {
    SubPath(g, chain, 0, i + 1);
    assert PathFromTo(g, chain[0..i + 1], roots[root].path, chain[i]);
  }

  lemma ChainKnown(inp: Inputs, r: ScanReport, root: string, component: string, chain: seq<string>)
    requires ComponentsOk(inp, r.components) && ChainOk(References(inp.graph), inp.roots, root, component, chain)
    ensures forall i :: 0 <= i < |chain| ==> HasId(PackagesOf(ReachedFrom(r.components, root)), NodeId, chain[i])
  {
    forall i | 0 <= i < |chain| ensures HasId(PackagesOf(ReachedFrom(r.components, root)), NodeId, chain[i]) {
      ChainReached(References(inp.graph), inp.roots, root, component, chain, i);
      ReachedKnown(inp, r, root, chain[i]);
    }
  }

  lemma EvidenceValid(p: ProductReport, f: Finding, packageId: string)
    requires p.roots != [] && p.roots[0].id == f.root && HasId(p.packages, NodeId, packageId)
    requires forall i :: 0 <= i < |f.path| ==> HasId(p.packages, NodeId, f.path[i])
    ensures ValidFinding(p, FindingEvidenceOf(f, packageId))
  {
    var path := [f.root] + f.path;
    assert p.roots[0] in p.roots && RootId(p.roots[0]) == path[0];
    assert ValidPath(p, path);
  }

  lemma FindingsLinked(inp: Inputs, r: ScanReport, root: string, e: FindingEvidence)
    requires IsScan(inp, r) && root in r.roots && Locatable(r.components, r.findings)
    requires e in Product(r, root).findings
    ensures ValidFinding(Product(r, root), e)
  {
    InFindingsOf(r.components, r.findings, root, e);
    var f :| f in r.findings && f.root == root && e == FindingEvidenceOf(f, PackageIdOf(r.components, f).value);
    assert FindingOk(inp, f);
    FindingLocated(inp, r, f);
    ChainKnown(inp, r, root, f.component, f.path);
    EvidenceValid(Product(r, root), f, PackageIdOf(r.components, f).value);
  }

  lemma EdgesLinked(inp: Inputs, r: ScanReport, root: string, e: DependencyEdge)
    requires IsScan(inp, r) && root in r.roots && Locatable(r.components, r.findings)
    requires e in Product(r, root).edges
    ensures ValidEdge(Product(r, root), e)
  {
    var reached := ReachedFrom(r.components, root);
    InEdgesOf(reached, StorePaths(reached), e);
    var c :| c in reached && e in EdgesFrom(c.storePath, c.references, StorePaths(reached));
    InEdgesFrom(c.storePath, c.references, StorePaths(reached), e);
    InStorePaths(reached, e.target);
    var d :| d in reached && d.storePath == e.target;
    NodeFirst(c.storePath, c.identity);
    ComponentIdKnown(reached, c, c.storePath);
    NodeFirst(d.storePath, d.identity);
    ComponentIdKnown(reached, d, d.storePath);
  }

  lemma PackagesReasoned(path: string, identity: ComponentIdentity, p: PackageEvidence)
    requires p in Packages(path, identity)
    ensures Reasoned(p)
  {
    if identity.Identified? && p in MergedByIdentity(path, identity.packages) {
      var i :| 0 <= i < |MergedByIdentity(path, identity.packages)| && MergedByIdentity(path, identity.packages)[i] == p;
      MergedEntry(path, identity.packages, i);
    }
  }

  /** Edges, findings and explanation paths of a scan's products only mention what is in them. */
  lemma ProductsLinked(inp: Inputs, r: ScanReport, root: string)
    requires IsScan(inp, r) && root in r.roots && Locatable(r.components, r.findings)
    ensures WellLinked(Product(r, root))
  {
    var p := Product(r, root);
    forall e | e in p.edges ensures ValidEdge(p, e) { EdgesLinked(inp, r, root, e); }
    forall e | e in p.findings ensures ValidFinding(p, e) { FindingsLinked(inp, r, root, e); }
    forall x | x in p.packages ensures Reasoned(x) {
      InPackagesOf(ReachedFrom(r.components, root), x);
      var c :| c in ReachedFrom(r.components, root) && x in Packages(c.storePath, c.identity);
      PackagesReasoned(c.storePath, c.identity, x);
    }
  }
}
