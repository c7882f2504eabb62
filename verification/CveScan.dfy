/** The scan: reachability, identities, findings and the verdict. */
module CveScan {
  import opened Wrappers
  import opened Ordering
  import opened Digraph
  import opened NixClosure
  import opened CveModel
  import opened CveFindings
  import opened CveMerge

  datatype AdvisoryCoverage = Routable | NixpkgsDeclaredOnly | UnroutableIdentity | NotApplicable

  datatype Component = Component(
    storePath: string,
    narHash: string,
    narSize: nat,
    references: seq<string>,
    reachableFrom: seq<string>,
    advisoryCoverage: AdvisoryCoverage,
    identity: ComponentIdentity)

  datatype ScanStatus = Clean | Actionable | Incomplete

  datatype ScanReport = ScanReport(
    status: ScanStatus,
    roots: SecurityRoots,
    components: seq<Component>,
    findings: seq<Finding>)

  datatype ScanError = BadSnapshot(snapshot: SnapshotError) | BadVex(vex: VexError) | BadGraph(graph: GraphError) | NothingReachable

  /** Everything a scan reads. */
  datatype Inputs = Inputs(
    graph: PathInfoGraph,
    roots: SecurityRoots,
    identities: IdentityCatalog,
    snapshot: Snapshot,
    vex: VexDocument,
    time: string,
    clock: Clock)

  predicate RoutablePackage(p: PackageIdentity) {
    p.purls != [] || p.cpes != [] || p.commits != []
  }

  function CoverageOf(identity: ComponentIdentity): AdvisoryCoverage {
    match identity
    case Identified(packages) =>
      if exists i :: i in packages && RoutablePackage(i.package) then Routable
      else if exists i :: i in packages && DeclaredIds(i.package) != [] then NixpkgsDeclaredOnly
      else UnroutableIdentity
    case Unknown(_) => UnroutableIdentity
    case NonPackage(_, _) => NotApplicable
  }

  // --- what a scan means, from its inputs alone ---

  /** Some security root reaches the path. */
  ghost predicate InScope(inp: Inputs, path: string) {
    exists key :: RootReaches(References(inp.graph), inp.roots, key, path)
  }

  /** The identity evidence of `path` gives cause for this finding. */
  ghost predicate Raised(advisories: seq<Advisory>, identity: ComponentIdentity, id: string, m: MatchedIdentity, app: Applicability) {
    identity.Identified? && exists item :: item in identity.packages && Raises(advisories, item, id, m, app)
  }

  /** A root is exposed to an advisory through a component it reaches and whose identity
      evidence is valid. */
  ghost predicate Exposed(inp: Inputs, key: FindingKey, app: Applicability) {
    && RootReaches(References(inp.graph), inp.roots, key.root, key.component)
    && key.component in inp.identities && ValidIdentity(inp.identities[key.component])
    && Raised(inp.snapshot.advisories, inp.identities[key.component], key.advisoryId, key.matched, app)
  }

  /** Advisories can be routed to the package: by purl, CPE or commit, or because nixpkgs
      declares vulnerabilities for it. */
  predicate ByIdentity(p: PackageIdentity) {
    |p.purls| + |p.cpes| + |p.commits| > 0
  }

  predicate ByDeclaration(p: PackageIdentity) {
    p.nixpkgs.Some? && p.nixpkgs.value.knownVulnerabilities != []
  }

  ghost predicate CoverageFits(identity: ComponentIdentity, c: AdvisoryCoverage) {
    && (c.NotApplicable? <==> identity.NonPackage?)
    && (c.Routable? <==> identity.Identified? && exists i :: i in identity.packages && ByIdentity(i.package))
    && (c.NixpkgsDeclaredOnly? <==>
          && identity.Identified? && (forall i :: i in identity.packages ==> !ByIdentity(i.package))
          && exists i :: i in identity.packages && ByDeclaration(i.package))
  }

  /** Missing evidence and invalid evidence make a component unknown, each in its own way. */
  ghost predicate IsTakenAs(identities: IdentityCatalog, path: string, identity: ComponentIdentity) {
    || (path !in identities && identity == Unknown(MissingMetadata))
    || (path in identities && !ValidIdentity(identities[path]) && identity == Unknown(InvalidEvidence))
    || (path in identities && ValidIdentity(identities[path]) && identity == identities[path])
  }

  ghost predicate ComponentOk(inp: Inputs, c: Component) {
    && c.storePath in inp.graph
    && c.narHash == inp.graph[c.storePath].narHash && c.narSize == inp.graph[c.storePath].narSize
    && (forall r :: r in c.references <==> r in inp.graph[c.storePath].references) && Rising(c.references)
    && (forall key :: key in c.reachableFrom <==> RootReaches(References(inp.graph), inp.roots, key, c.storePath))
    && c.reachableFrom != [] && NoDup(c.reachableFrom)
    && IsTakenAs(inp.identities, c.storePath, c.identity) && c.identity == EffectiveIdentity(inp.identities, c.storePath)
    && CoverageFits(c.identity, c.advisoryCoverage)
  }

  ghost predicate Lists(comps: seq<Component>, path: string) {
    exists c :: c in comps && c.storePath == path
  }

  /** Components in the order of their store paths. */
  ghost predicate InPathOrder(comps: seq<Component>) {
    forall i, j :: 0 <= i < j < |comps| ==> StrLeq(comps[i].storePath, comps[j].storePath)
  }

  /** One component for each path in scope. */
  ghost predicate ComponentsOk(inp: Inputs, comps: seq<Component>) {
    && (forall c :: c in comps ==> ComponentOk(inp, c))
    && (forall i, j :: 0 <= i < j < |comps| ==> comps[i].storePath != comps[j].storePath)
    && (forall path :: InScope(inp, path) <==> Lists(comps, path))
  }

  /** The finding is real, assessed, confirmed when it can be, described by its advisory, and
      explained by a shortest chain. */
  ghost predicate FindingOk(inp: Inputs, f: Finding) {
    && Exposed(inp, KeyOf(f), f.applicability)
    && (f.applicability.Confirmed? <==> Exposed(inp, KeyOf(f), Confirmed))
    && f.vex == Assessment(inp.vex.statements, f.root, f.matched, f.advisoryId)
    && Described(inp.snapshot.advisories, f)
    && f.root in inp.roots
    && ShortestChain(References(inp.graph), inp.roots[f.root].path, f.component, f.path)
  }

  /** One finding for each exposure, whatever the number of packages and advisories behind it. */
  ghost predicate FindingsOk(inp: Inputs, findings: seq<Finding>) {
    && (forall f :: f in findings ==> FindingOk(inp, f))
    && (forall i, j :: 0 <= i < j < |findings| ==> KeyOf(findings[i]) != KeyOf(findings[j]))
    && (forall key, app :: Exposed(inp, key, app) ==> HasKey(findings, key))
    && (forall i, j :: 0 <= i < j < |findings| ==> KeyBefore(KeyOf(findings[i]), KeyOf(findings[j])))
  }

  predicate Excuses(vex: Option<VexStatement>) {
    vex.Some? && (vex.value.status.NotAffected? || vex.value.status.Fixed?)
  }

  predicate Blocks(f: Finding) {
    f.applicability.Confirmed? && !Excuses(f.vex)
  }

  predicate Uncovered(c: Component) {
    c.identity.Unknown? || c.advisoryCoverage.UnroutableIdentity?
  }

  function StatusOf(comps: seq<Component>, findings: seq<Finding>): ScanStatus {
    if (exists c :: c in comps && Uncovered(c)) || (exists f :: f in findings && f.applicability.UnverifiedOutputScope?)
    then Incomplete
    else if exists f :: f in findings && Blocks(f) then Actionable
    else Clean
  }

  ghost predicate InputsOk(inp: Inputs) {
    && ValidSnapshot(inp.snapshot) && ValidVex(inp.vex, inp.time, inp.clock)
    && RootsValid(inp.graph, inp.roots) && AllPresent(inp.graph, inp.roots)
    && inp.roots != map[]
  }

  ghost predicate IsScan(inp: Inputs, r: ScanReport) {
    && InputsOk(inp)
    && r.roots == inp.roots
    && ComponentsOk(inp, r.components) && InPathOrder(r.components)
    && FindingsOk(inp, r.findings)
    && r.status == StatusOf(r.components, r.findings)
  }

  // --- findings while the components are being walked ---

  /** The components walked so far give cause for this finding. */
  ghost predicate Cause(advisories: seq<Advisory>, comps: seq<Component>, key: FindingKey, app: Applicability) {
    exists c :: c in comps && RaisedIn(advisories, c, key, app)
  }

  ghost predicate RaisedIn(advisories: seq<Advisory>, c: Component, key: FindingKey, app: Applicability) {
    && c.storePath == key.component && key.root in c.reachableFrom
    && Raised(advisories, c.identity, key.advisoryId, key.matched, app)
  }

  ghost predicate Filed(raw: seq<Finding>, key: FindingKey, app: Applicability) {
    exists f :: f in raw && KeyOf(f) == key && f.applicability == app
  }

  ghost predicate RawOk(advisories: seq<Advisory>, comps: seq<Component>, raw: seq<Finding>) {
    forall key, app :: Filed(raw, key, app) <==> Cause(advisories, comps, key, app)
  }

  ghost predicate ChainOk(g: Graph, roots: SecurityRoots, root: string, component: string, chain: seq<string>) {
    root in roots && ShortestChain(g, roots[root].path, component, chain)
  }

  /** Every finding is explained by a shortest chain and described by its advisory. */
  ghost predicate ChainsOk(advisories: seq<Advisory>, g: Graph, roots: SecurityRoots, raw: seq<Finding>) {
    forall f :: f in raw ==> ChainOk(g, roots, f.root, f.component, f.path) && Described(advisories, f)
  }

  ghost predicate SiteOk(g: Graph, roots: SecurityRoots, path: string, key: string, s: Site) {
    s.component == path && s.root == key && ChainOk(g, roots, key, path, s.chain)
  }

  /** One site for each root that reaches the component. */
  ghost predicate SitesOk(g: Graph, roots: SecurityRoots, path: string, keys: seq<string>, sites: seq<Site>) {
    var n := |keys|;
    |sites| == n && (n > 0 ==> SitesOk(g, roots, path, keys[..n - 1], sites[..n - 1]) && SiteOk(g, roots, path, keys[n - 1], sites[n - 1]))
  }

  lemma {:induction false} SiteAtIndex(g: Graph, roots: SecurityRoots, path: string, keys: seq<string>, sites: seq<Site>, i: int)
    requires SitesOk(g, roots, path, keys, sites) && 0 <= i < |sites|
    ensures SiteOk(g, roots, path, keys[i], sites[i])
  {
    var n := |keys|;
    if i < n - 1 { SiteAtIndex(g, roots, path, keys[..n - 1], sites[..n - 1], i); }
  }

  lemma SiteAdded(g: Graph, roots: SecurityRoots, path: string, keys: seq<string>, sites: seq<Site>, key: string, s: Site)
    requires SitesOk(g, roots, path, keys, sites) && SiteOk(g, roots, path, key, s)
    ensures SitesOk(g, roots, path, keys + [key], sites + [s])
  {
    assert (keys + [key])[..|keys|] == keys && (sites + [s])[..|sites|] == sites;
  }

  lemma RaisedInIsFiled(advisories: seq<Advisory>, c: Component, sites: seq<Site>, g: Graph, roots: SecurityRoots,
                        key: FindingKey, app: Applicability)
    requires c.identity.Identified? && SitesOk(g, roots, c.storePath, c.reachableFrom, sites)
    requires RaisedIn(advisories, c, key, app)
    ensures Filed(ComponentFindings(advisories, c.identity.packages, sites), key, app)
  {
    var item :| item in c.identity.packages && Raises(advisories, item, key.advisoryId, key.matched, app);
    var i :| 0 <= i < |c.reachableFrom| && c.reachableFrom[i] == key.root;
    var s := sites[i];
    SiteAtIndex(g, roots, c.storePath, c.reachableFrom, sites, i);
    var f := SiteFindingsComplete(advisories, item, s, key.advisoryId, key.matched, app);
    InPackageFindings(advisories, item, sites, f);
    ComponentFindingsComplete(advisories, c.identity.packages, sites, item, f);
  }

  lemma FoundIsRaisedIn(advisories: seq<Advisory>, c: Component, sites: seq<Site>, g: Graph, roots: SecurityRoots, f: Finding)
    requires c.identity.Identified? && SitesOk(g, roots, c.storePath, c.reachableFrom, sites)
    requires f in ComponentFindings(advisories, c.identity.packages, sites)
    ensures RaisedIn(advisories, c, KeyOf(f), f.applicability)
    ensures ChainOk(g, roots, f.root, f.component, f.path) && Described(advisories, f)
  {
    var item := ComponentFindingsSound(advisories, c.identity.packages, sites, f);
    InPackageFindings(advisories, item, sites, f);
    var s :| s in sites && f in SiteFindings(advisories, item, s);
    var i :| 0 <= i < |sites| && sites[i] == s;
    SiteAtIndex(g, roots, c.storePath, c.reachableFrom, sites, i);
    SiteFindingsSound(advisories, item, s, f);
  }

  /** The findings raised for one component are exactly the ones it gives cause for. */
  lemma ComponentExact(advisories: seq<Advisory>, c: Component, sites: seq<Site>, g: Graph, roots: SecurityRoots, added: seq<Finding>)
    requires c.identity.Identified? && SitesOk(g, roots, c.storePath, c.reachableFrom, sites)
    requires added == ComponentFindings(advisories, c.identity.packages, sites)
    ensures forall key, app :: Filed(added, key, app) <==> RaisedIn(advisories, c, key, app)
    ensures ChainsOk(advisories, g, roots, added)
  {
    forall key, app | RaisedIn(advisories, c, key, app) ensures Filed(added, key, app) {
      RaisedInIsFiled(advisories, c, sites, g, roots, key, app);
    }
    forall f | f in added
      ensures RaisedIn(advisories, c, KeyOf(f), f.applicability)
      ensures ChainOk(g, roots, f.root, f.component, f.path) && Described(advisories, f)
    {
      FoundIsRaisedIn(advisories, c, sites, g, roots, f);
    }
  }

  lemma CauseGrows(advisories: seq<Advisory>, comps: seq<Component>, c: Component, key: FindingKey, app: Applicability)
    ensures Cause(advisories, comps + [c], key, app) <==> Cause(advisories, comps, key, app) || RaisedIn(advisories, c, key, app)
  {
    var all := comps + [c];
    assert forall x :: x in all <==> x in comps || x == c;
  }

  lemma FiledGrows(raw: seq<Finding>, added: seq<Finding>, key: FindingKey, app: Applicability)
    ensures Filed(raw + added, key, app) <==> Filed(raw, key, app) || Filed(added, key, app)
  {
    var all := raw + added;
    assert forall x :: x in all <==> x in raw || x in added;
  }

  lemma RawGrows(advisories: seq<Advisory>, comps: seq<Component>, raw: seq<Finding>, c: Component, added: seq<Finding>)
    requires RawOk(advisories, comps, raw)
    requires forall key, app :: Filed(added, key, app) <==> RaisedIn(advisories, c, key, app)
    ensures RawOk(advisories, comps + [c], raw + added)
  {
    forall key, app ensures Filed(raw + added, key, app) <==> Cause(advisories, comps + [c], key, app) {
      CauseGrows(advisories, comps, c, key, app);
      FiledGrows(raw, added, key, app);
    }
  }

  // --- one component ---

  /** The key's search has been made and found the path. */
  ghost predicate Reached(graph: PathInfoGraph, roots: SecurityRoots, reach: Reachability, path: string, key: string) {
    && key in reach.predecessors && SearchedFrom(graph, roots, key, reach.predecessors[key])
    && RootReaches(References(graph), roots, key, path)
  }

  lemma AllReached(graph: PathInfoGraph, roots: SecurityRoots, reach: Reachability, path: string, keys: seq<string>)
    requires IsReachability(graph, roots, reach)
    requires forall key :: key in keys ==> RootReaches(References(graph), roots, key, path)
    ensures forall i :: 0 <= i < |keys| ==> Reached(graph, roots, reach, path, keys[i])
  {
    forall i | 0 <= i < |keys| ensures Reached(graph, roots, reach, path, keys[i]) {
      assert keys[i] in keys;
    }
  }

  method SiteFor(ghost graph: PathInfoGraph, ghost roots: SecurityRoots, reach: Reachability, path: string, key: string)
    returns (s: Site)
    requires Reached(graph, roots, reach, path, key)
    ensures SiteOk(References(graph), roots, path, key, s)
  {
    var chain := Path(graph, roots, reach, key, path);
    s := Site(path, key, chain.value);
  }

  /** The chains from every root that reaches the path. */
  method Sites(ghost graph: PathInfoGraph, ghost roots: SecurityRoots, reach: Reachability, path: string, keys: seq<string>)
    returns (sites: seq<Site>)
    requires forall i :: 0 <= i < |keys| ==> Reached(graph, roots, reach, path, keys[i])
    ensures SitesOk(References(graph), roots, path, keys, sites)
  {
    sites := [];
    ghost var g := References(graph);
    for i := 0 to |keys|
      invariant SitesOk(g, roots, path, keys[..i], sites)
    {
      var s := SiteFor(graph, roots, reach, path, keys[i]);
      SiteAdded(g, roots, path, keys[..i], sites, keys[i], s);
      assert keys[..i + 1] == keys[..i] + [keys[i]];
      sites := sites + [s];
    }
    assert keys[..|keys|] == keys;
  }

  function NewComponent(inp: Inputs, path: string, keys: seq<string>): Component
    requires path in inp.graph
  {
    var info := inp.graph[path];
    var identity := EffectiveIdentity(inp.identities, path);
    Component(path, info.narHash, info.narSize, Dedup(SortBy(info.references, StrLeq)), keys, CoverageOf(identity), identity)
  }

  lemma CoverageOfFits(identity: ComponentIdentity)
    ensures CoverageFits(identity, CoverageOf(identity))
  {
    assert forall p :: RoutablePackage(p) <==> ByIdentity(p);
    assert forall p :: DeclaredIds(p) != [] <==> ByDeclaration(p);
  }

  lemma NewComponentOk(inp: Inputs, reach: Reachability, path: string)
    requires IsReachability(inp.graph, inp.roots, reach) && path in reach.pathRoots && path in inp.graph
    ensures ComponentOk(inp, NewComponent(inp, path, reach.pathRoots[path]))
  {
    var keys := reach.pathRoots[path];
    ClosureIsExact(inp.graph, inp.roots, reach, path);
    assert RootsFor(reach.pathRoots, path) == keys;
    assert keys[0] in keys;
    SortedSet(inp.graph[path].references);
    CoverageOfFits(EffectiveIdentity(inp.identities, path));
  }

  lemma ChainsGrow(advisories: seq<Advisory>, g: Graph, roots: SecurityRoots, raw: seq<Finding>, added: seq<Finding>)
    requires ChainsOk(advisories, g, roots, raw) && ChainsOk(advisories, g, roots, added)
    ensures ChainsOk(advisories, g, roots, raw + added)
  {
  }

  /** The findings of one identified component, at every root that reaches it. */
  method RaiseComponent(inp: Inputs, reach: Reachability, c: Component, ghost comps: seq<Component>, raw0: seq<Finding>)
    returns (raw: seq<Finding>)
    requires IsReachability(inp.graph, inp.roots, reach) && c.identity.Identified?
    requires forall key :: key in c.reachableFrom ==> RootReaches(References(inp.graph), inp.roots, key, c.storePath)
    requires RawOk(inp.snapshot.advisories, comps, raw0) && ChainsOk(inp.snapshot.advisories, References(inp.graph), inp.roots, raw0)
    ensures RawOk(inp.snapshot.advisories, comps + [c], raw) && ChainsOk(inp.snapshot.advisories, References(inp.graph), inp.roots, raw)
  {
    var advisories := inp.snapshot.advisories;
    AllReached(inp.graph, inp.roots, reach, c.storePath, c.reachableFrom);
    var sites := Sites(inp.graph, inp.roots, reach, c.storePath, c.reachableFrom);
    raw := RaiseFindings(advisories, c.identity.packages, sites, raw0);
    ghost var added := ComponentFindings(advisories, c.identity.packages, sites);
    ComponentExact(advisories, c, sites, References(inp.graph), inp.roots, added);
    RawGrows(advisories, comps, raw0, c, added);
    ChainsGrow(advisories, References(inp.graph), inp.roots, raw0, added);
  }

  /** What one turn of the component loop adds. */
  method ScanComponent(inp: Inputs, reach: Reachability, path: string, ghost comps: seq<Component>, raw0: seq<Finding>)
    returns (c: Component, raw: seq<Finding>)
    requires IsReachability(inp.graph, inp.roots, reach) && path in reach.pathRoots && path in inp.graph
    requires RawOk(inp.snapshot.advisories, comps, raw0) && ChainsOk(inp.snapshot.advisories, References(inp.graph), inp.roots, raw0)
    ensures c.storePath == path && ComponentOk(inp, c)
    ensures RawOk(inp.snapshot.advisories, comps + [c], raw) && ChainsOk(inp.snapshot.advisories, References(inp.graph), inp.roots, raw)
  {
    c := NewComponent(inp, path, reach.pathRoots[path]);
    NewComponentOk(inp, reach, path);
    if c.identity.Identified? {
      raw := RaiseComponent(inp, reach, c, comps, raw0);
    } else {
      raw := raw0;
      RawGrows(inp.snapshot.advisories, comps, raw0, c, []);
      assert raw0 + [] == raw0;
    }
  }

  // --- all components ---

  /** The walk has made one component of each path in `paths`. */
  ghost predicate Walked(inp: Inputs, paths: seq<string>, comps: seq<Component>) {
    && |comps| == |paths|
    && forall i :: 0 <= i < |paths| ==> comps[i].storePath == paths[i] && ComponentOk(inp, comps[i])
  }

  lemma WalkedAll(inp: Inputs, reach: Reachability, paths: seq<string>, comps: seq<Component>)
    requires IsReachability(inp.graph, inp.roots, reach) && Walked(inp, paths, comps) && NoDup(paths)
    requires forall p :: p in paths <==> p in reach.pathRoots
    ensures ComponentsOk(inp, comps)
  {
    forall p ensures InScope(inp, p) <==> Lists(comps, p) {
      ClosureIsExact(inp.graph, inp.roots, reach, p);
      if p in paths {
        var i :| 0 <= i < |paths| && paths[i] == p;
        assert comps[i] in comps;
      }
      if Lists(comps, p) {
        var i :| 0 <= i < |comps| && comps[i].storePath == p;
        assert paths[i] in paths;
      }
    }
  }

  lemma WalkedInOrder(inp: Inputs, keys: set<string>, comps: seq<Component>)
    requires Walked(inp, Ascending(keys), comps)
    ensures InPathOrder(comps)
  {
    var paths := Ascending(keys);
    AscendingSorted(keys);
    forall i, j | 0 <= i < j < |comps| ensures StrLeq(comps[i].storePath, comps[j].storePath) {
      assert comps[i].storePath == paths[i] && comps[j].storePath == paths[j];
    }
  }

  method WalkComponents(inp: Inputs, reach: Reachability, paths: seq<string>)
    returns (r: Result<(seq<Component>, seq<Finding>), GraphError>)
    requires IsReachability(inp.graph, inp.roots, reach) && forall p :: p in paths ==> p in reach.pathRoots
    ensures r.Ok? <==> forall p :: p in paths ==> p in inp.graph
    ensures r.Ok? ==> Walked(inp, paths, r.value.0)
    ensures r.Ok? ==> RawOk(inp.snapshot.advisories, r.value.0, r.value.1)
    ensures r.Ok? ==> ChainsOk(inp.snapshot.advisories, References(inp.graph), inp.roots, r.value.1)
  {
    var comps: seq<Component>, raw: seq<Finding> := [], [];
    for i := 0 to |paths|
      invariant Walked(inp, paths[..i], comps)
      invariant forall p :: p in paths[..i] ==> p in inp.graph
      invariant RawOk(inp.snapshot.advisories, comps, raw) && ChainsOk(inp.snapshot.advisories, References(inp.graph), inp.roots, raw)
    {
      if paths[i] !in inp.graph { return Err(EntryDisappeared(paths[i])); }
      assert paths[i] in paths && paths[..i + 1] == paths[..i] + [paths[i]];
      var c;
      c, raw := ScanComponent(inp, reach, paths[i], comps, raw);
      comps := comps + [c];
    }
    assert paths[..|paths|] == paths;
    r := Ok((comps, raw));
  }

  /** The causes found on the walk are the exposures in the inputs. */
  lemma CauseIsExposure(inp: Inputs, comps: seq<Component>, key: FindingKey, app: Applicability)
    requires ComponentsOk(inp, comps)
    ensures Cause(inp.snapshot.advisories, comps, key, app) <==> Exposed(inp, key, app)
  {
    if Exposed(inp, key, app) {
      assert InScope(inp, key.component);
      var c :| c in comps && c.storePath == key.component;
      assert ComponentOk(inp, c);
      assert RaisedIn(inp.snapshot.advisories, c, key, app);
    }
  }

  lemma DigestOk(inp: Inputs, comps: seq<Component>, raw: seq<Finding>, unique: seq<Finding>)
    requires ComponentsOk(inp, comps) && RawOk(inp.snapshot.advisories, comps, raw)
    requires ChainsOk(inp.snapshot.advisories, References(inp.graph), inp.roots, raw)
    requires IsDigest(inp.vex.statements, raw, unique) && Sorted(unique, FindingLeq)
    ensures FindingsOk(inp, unique)
  {
    forall key, app ensures Filed(raw, key, app) <==> Exposed(inp, key, app) {
      CauseIsExposure(inp, comps, key, app);
    }
    forall u | u in unique ensures FindingOk(inp, u) {
      DigestedOk(inp, raw, unique, u);
    }
    forall key, app | Exposed(inp, key, app) ensures HasKey(unique, key) {
      assert Filed(raw, key, app);
    }
    forall i, j | 0 <= i < j < |unique| ensures KeyBefore(KeyOf(unique[i]), KeyOf(unique[j])) {
      KeyBeforeIff(KeyOf(unique[i]), KeyOf(unique[j]));
    }
  }

  lemma AssessKeepsDescription(statements: seq<VexStatement>, advisories: seq<Advisory>, f: Finding)
    requires Described(advisories, f)
    ensures Described(advisories, Assess(statements, f))
  {
    if a :| a in advisories && DescribedBy(a, f) { assert DescribedBy(a, Assess(statements, f)); }
  }

  lemma DigestedOk(inp: Inputs, raw: seq<Finding>, unique: seq<Finding>, u: Finding)
    requires forall key, app :: Filed(raw, key, app) <==> Exposed(inp, key, app)
    requires ChainsOk(inp.snapshot.advisories, References(inp.graph), inp.roots, raw)
    requires IsDigest(inp.vex.statements, raw, unique) && u in unique
    ensures FindingOk(inp, u)
  {
    var f :| f in raw && u == Assess(inp.vex.statements, f);
    assert Filed(raw, KeyOf(u), u.applicability);
    assert ChainOk(References(inp.graph), inp.roots, f.root, f.component, f.path);
    AssessKeepsDescription(inp.vex.statements, inp.snapshot.advisories, f);
    if Filed(raw, KeyOf(u), Confirmed) { assert u.applicability.Confirmed?; }
  }

  lemma SomethingReachable(inp: Inputs, reach: Reachability)
    requires IsReachability(inp.graph, inp.roots, reach)
    ensures reach.pathRoots == map[] <==> inp.roots == map[]
  {
    if inp.roots != map[] {
      var key :| key in inp.roots;
      var p := inp.roots[key].path;
      ReachesSelf(References(inp.graph), p);
      ClosureIsExact(inp.graph, inp.roots, reach, p);
      assert RootReaches(References(inp.graph), inp.roots, key, p);
      assert p in reach.pathRoots;
    }
    if reach.pathRoots != map[] {
      var p :| p in reach.pathRoots;
      ClosureIsExact(inp.graph, inp.roots, reach, p);
      var key :| RootReaches(References(inp.graph), inp.roots, key, p);
      assert key in inp.roots;
    }
  }

  lemma ReachableIsPresent(inp: Inputs, reach: Reachability, p: string)
    requires IsReachability(inp.graph, inp.roots, reach) && AllPresent(inp.graph, inp.roots) && p in reach.pathRoots
    ensures p in inp.graph
  {
    ClosureIsExact(inp.graph, inp.roots, reach, p);
    var key :| RootReaches(References(inp.graph), inp.roots, key, p);
  }

  /** `scan`: it succeeds exactly when its inputs are valid and everything the roots reach has
      an entry, and its report says neither more nor less than the inputs do. */
  method Scan(inp: Inputs) returns (r: Result<ScanReport, ScanError>)
    ensures r.Ok? ==> IsScan(inp, r.value)
    ensures r.Ok? <==> InputsOk(inp)
  {
    var snapshot := ValidateSnapshot(inp.snapshot);
    if snapshot.Err? { return Err(BadSnapshot(snapshot.error)); }
    var vex := ValidateVex(inp.vex, inp.time, inp.clock);
    if vex.Err? { return Err(BadVex(vex.error)); }
    var reach := ComputeReachability(inp.graph, inp.roots);
    if reach.Err? { return Err(BadGraph(reach.error)); }
    SomethingReachable(inp, reach.value);
    if reach.value.pathRoots == map[] { return Err(NothingReachable); }
    var paths := Ascending(reach.value.pathRoots.Keys);
    var walk := WalkComponents(inp, reach.value, paths);
    match walk {
      case Err(e) =>
        forall p | p in paths ensures p in inp.graph { ReachableIsPresent(inp, reach.value, p); }
        r := Err(BadGraph(e));
      case Ok(walked) =>
        var (components, raw) := walked;
        WalkedAll(inp, reach.value, paths, components);
        WalkedInOrder(inp, reach.value.pathRoots.Keys, components);
        var findings := Digest(inp.vex.statements, raw);
        DigestOk(inp, components, raw, findings);
        r := Ok(ScanReport(StatusOf(components, findings), inp.roots, components, findings));
    }
  }

  /** On a graph that `validate_graph` accepted, only the other inputs can be at fault. */
  lemma ValidGraphSuffices(inp: Inputs)
    requires ValidGraph(inp.graph)
    ensures InputsOk(inp) <==>
      && ValidSnapshot(inp.snapshot) && ValidVex(inp.vex, inp.time, inp.clock)
      && RootsValid(inp.graph, inp.roots) && inp.roots != map[]
  {
    if RootsValid(inp.graph, inp.roots) { ValidGraphIsPresent(inp.graph, inp.roots); }
  }

  // --- the verdict ---

  /** The statement is about this exact root, identity and advisory. */
  ghost predicate IsAbout(s: VexStatement, key: FindingKey) {
    s.component == key.matched && s.advisory == key.advisoryId && s.rootBomRef == "root:" + key.root
  }

  /** A statement of the document excuses this exact root, identity and advisory. */
  ghost predicate Excused(inp: Inputs, key: FindingKey) {
    exists s :: s in inp.vex.statements && IsAbout(s, key) && ExcusesNow(inp, s)
  }

  ghost predicate ExcusesNow(inp: Inputs, s: VexStatement) {
    || s.status.Fixed?
    || (s.status.NotAffected? && inp.clock(inp.time).Some? && Current(s, inp.clock(inp.time).value, inp.clock))
  }

  /** The path has valid identity evidence, and is no package or has one that advisories can be
      routed to. */
  ghost predicate CoveredPath(identities: IdentityCatalog, path: string) {
    && path in identities && ValidIdentity(identities[path])
    && match identities[path]
       case Identified(packages) => exists i :: i in packages && (ByIdentity(i.package) || ByDeclaration(i.package))
       case NonPackage(_, _) => true
       case Unknown(_) => false
  }

  ghost predicate Covered(inp: Inputs) {
    forall path :: InScope(inp, path) ==> CoveredPath(inp.identities, path)
  }

  lemma CoveredPathIff(inp: Inputs, c: Component)
    requires ComponentOk(inp, c)
    ensures CoveredPath(inp.identities, c.storePath) <==> !Uncovered(c)
  {
    if c.identity.Identified? {
      var packages := c.identity.packages;
      if i :| i in packages && (ByIdentity(i.package) || ByDeclaration(i.package)) {
        assert c.advisoryCoverage.Routable? || c.advisoryCoverage.NixpkgsDeclaredOnly?;
      }
    }
  }

  ghost predicate Harmless(inp: Inputs, key: FindingKey) {
    Exposed(inp, key, Confirmed) && Excused(inp, key)
  }

  lemma ExcusedIff(inp: Inputs, key: FindingKey)
    requires ValidVex(inp.vex, inp.time, inp.clock)
    ensures Excuses(Assessment(inp.vex.statements, key.root, key.matched, key.advisoryId)) <==> Excused(inp, key)
  {
    var found := Assessment(inp.vex.statements, key.root, key.matched, key.advisoryId);
    if found.Some? && Excuses(found) {
      var i :| 0 <= i < |inp.vex.statements| && inp.vex.statements[i] == found.value;
      assert ValidAt(inp.vex.statements, i, inp.clock(inp.time).value, inp.clock);
      assert IsAbout(found.value, key);
    }
    if Excused(inp, key) {
      var s :| s in inp.vex.statements && IsAbout(s, key) && ExcusesNow(inp, s);
      AssessmentIsUnique(inp.vex, inp.time, inp.clock, key.root, key.matched, key.advisoryId, s);
    }
  }

  lemma CoveredIff(inp: Inputs, comps: seq<Component>)
    requires ComponentsOk(inp, comps)
    ensures Covered(inp) <==> forall c :: c in comps ==> !Uncovered(c)
  {
    forall c | c in comps ensures InScope(inp, c.storePath) && (CoveredPath(inp.identities, c.storePath) <==> !Uncovered(c)) {
      assert Lists(comps, c.storePath);
      CoveredPathIff(inp, c);
    }
    if forall c :: c in comps ==> !Uncovered(c) {
      forall path | InScope(inp, path) ensures CoveredPath(inp.identities, path) {
        var c :| c in comps && c.storePath == path;
      }
    }
  }

  predicate Benign(f: Finding) {
    f.applicability.Confirmed? && Excuses(f.vex)
  }

  lemma HarmlessIff(inp: Inputs, findings: seq<Finding>)
    requires FindingsOk(inp, findings) && ValidVex(inp.vex, inp.time, inp.clock)
    ensures (forall key, app :: Exposed(inp, key, app) ==> Harmless(inp, key)) <==> forall f :: f in findings ==> Benign(f)
  {
    forall f | f in findings ensures Benign(f) <==> Harmless(inp, KeyOf(f)) {
      assert FindingOk(inp, f);
      ExcusedIff(inp, KeyOf(f));
    }
    if forall f :: f in findings ==> Benign(f) {
      forall key, app | Exposed(inp, key, app) ensures Harmless(inp, key) {
        var f :| f in findings && KeyOf(f) == key;
      }
    } else {
      var f :| f in findings && !Benign(f);
      assert Exposed(inp, KeyOf(f), f.applicability) && !Harmless(inp, KeyOf(f));
    }
  }

  lemma VerdictIff(comps: seq<Component>, findings: seq<Finding>)
    ensures StatusOf(comps, findings) == Clean <==>
      (forall c :: c in comps ==> !Uncovered(c)) && (forall f :: f in findings ==> Benign(f))
  {
    assert forall f: Finding :: Benign(f) <==> !Blocks(f) && !f.applicability.UnverifiedOutputScope?;
  }

  /** A scan is clean exactly when everything in scope can be matched against advisories, and
      every exposure is established on confirmed evidence and excused by a statement about
      that very root, identity and advisory which is still in force. */
  lemma CleanIff(inp: Inputs, r: ScanReport)
    requires IsScan(inp, r)
    ensures r.status == Clean <==>
      Covered(inp) && forall key, app :: Exposed(inp, key, app) ==> Harmless(inp, key)
  {
    CoveredIff(inp, r.components);
    HarmlessIff(inp, r.findings);
    VerdictIff(r.components, r.findings);
  }

  /** Exposed, but on no evidence that confirms it. */
  ghost predicate Unconfirmed(inp: Inputs, key: FindingKey) {
    Exposed(inp, key, UnverifiedOutputScope) && !Exposed(inp, key, Confirmed)
  }

  lemma UnverifiedIff(inp: Inputs, findings: seq<Finding>)
    requires FindingsOk(inp, findings)
    ensures (exists f :: f in findings && f.applicability.UnverifiedOutputScope?) <==> exists key :: Unconfirmed(inp, key)
  {
    if f :| f in findings && f.applicability.UnverifiedOutputScope? {
      assert FindingOk(inp, f);
      assert Unconfirmed(inp, KeyOf(f));
    }
    if key :| Unconfirmed(inp, key) {
      assert HasKey(findings, key);
      var f :| f in findings && KeyOf(f) == key;
      assert FindingOk(inp, f);
    }
  }

  /** A scan is incomplete exactly when something in scope cannot be matched against
      advisories, or some exposure rests on unconfirmed evidence alone. */
  lemma IncompleteIff(inp: Inputs, r: ScanReport)
    requires IsScan(inp, r)
    ensures r.status == Incomplete <==> !Covered(inp) || exists key :: Unconfirmed(inp, key)
  {
    CoveredIff(inp, r.components);
    UnverifiedIff(inp, r.findings);
  }

  /** Two scans of the same inputs agree on the verdict. */
  lemma VerdictsAgree(inp: Inputs, r: ScanReport, s: ScanReport)
    requires IsScan(inp, r) && IsScan(inp, s)
    ensures r.status == s.status
  {
    IncompleteIff(inp, r);
    IncompleteIff(inp, s);
    CleanIff(inp, r);
    CleanIff(inp, s);
  }

  /** Two scans of the same inputs agree on the exposures they report. */
  lemma ReportsAgree(inp: Inputs, r: ScanReport, s: ScanReport, f: Finding)
    requires IsScan(inp, r) && IsScan(inp, s) && f in r.findings
    ensures exists g :: g in s.findings && KeyOf(g) == KeyOf(f) && g.applicability == f.applicability && g.vex == f.vex
                        && |g.path| == |f.path|
  {
    assert FindingOk(inp, f);
    assert HasKey(s.findings, KeyOf(f));
    var g :| g in s.findings && KeyOf(g) == KeyOf(f);
    assert FindingOk(inp, g);
  }
}
