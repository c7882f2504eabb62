/** Raising findings for one component, sorting them and merging duplicates. */
module CveFindings {
  import opened Wrappers
  import opened Ordering
  import opened CveModel

  datatype Applicability = Confirmed | UnverifiedOutputScope

  datatype Finding = Finding(
    advisoryId: string,
    aliases: seq<string>,
    severity: Option<real>,
    summary: Option<string>,
    component: string,
    root: string,
    path: seq<string>,
    matched: MatchedIdentity,
    applicability: Applicability,
    vex: Option<VexStatement>)

  /** What the scan takes two findings to be the same by. */
  datatype FindingKey = FindingKey(root: string, advisoryId: string, component: string, matched: MatchedIdentity)

  function KeyOf(f: Finding): FindingKey {
    FindingKey(f.root, f.advisoryId, f.component, f.matched)
  }

  // --- raising ---

  /** Evidence from nixpkgs metadata alone does not say which output is affected. */
  function Scope(e: IdentityEvidence): Applicability {
    if e.NixpkgsMetadata? then UnverifiedOutputScope else Confirmed
  }

  function NewFinding(a: Advisory, component: string, root: string, chain: seq<string>, matched: MatchedIdentity,
                      applicability: Applicability): Finding {
    Finding(a.id, Dedup(SortBy(a.aliases, StrLeq)), a.severity, a.summary, component, root, chain, matched, applicability, None)
  }

  function FindAdvisory(advisories: seq<Advisory>, id: string): (r: Option<Advisory>)
    ensures r.Some? ==> r.value in advisories && r.value.id == id
    ensures r.None? ==> forall a :: a in advisories ==> a.id != id
  {
    if advisories == [] then None
    else if advisories[0].id == id then Some(advisories[0])
    else FindAdvisory(advisories[1..], id)
  }

  /** A vulnerability nixpkgs itself declares for the package. */
  function DeclaredFinding(advisories: seq<Advisory>, id: string, component: string, root: string, chain: seq<string>,
                           matched: MatchedIdentity): (f: Finding)
    ensures f.advisoryId == id && f.component == component && f.root == root && f.path == chain
    ensures f.matched == matched && f.applicability == UnverifiedOutputScope && f.vex == None
  {
    var known := FindAdvisory(advisories, id);
    if known.Some? then NewFinding(known.value, component, root, chain, matched, UnverifiedOutputScope)
    else
      Finding(id, [], None, Some("declared by nixpkgs meta.knownVulnerabilities"), component, root, chain, matched,
              UnverifiedOutputScope, None)
  }

  /** The targets of one advisory the package matches. */
  function MatchedTargets(package: PackageIdentity, a: Advisory, targets: seq<MatchedIdentity>): seq<(Advisory, MatchedIdentity)> {
    if targets == [] then []
    else
      var m := Matches(package, targets[0]);
      (if m.Some? then [(a, m.value)] else []) + MatchedTargets(package, a, targets[1..])
  }

  function MatchedAdvisories(package: PackageIdentity, advisories: seq<Advisory>): seq<(Advisory, MatchedIdentity)> {
    if advisories == [] then []
    else MatchedTargets(package, advisories[0], advisories[0].targets) + MatchedAdvisories(package, advisories[1..])
  }

  function DeclaredIds(package: PackageIdentity): seq<string> {
    if package.nixpkgs.Some? then package.nixpkgs.value.knownVulnerabilities else []
  }

  function DeclaredIdentity(package: PackageIdentity): MatchedIdentity {
    if package.nixpkgs.Some? then Nixpkgs(package.nixpkgs.value.attribute, package.nixpkgs.value.version)
    else Nixpkgs("", "")
  }

  /** Where a finding is raised: the component, the root and the chain between them. */
  datatype Site = Site(component: string, root: string, chain: seq<string>)

  function FromMatches(matched: seq<(Advisory, MatchedIdentity)>, site: Site, scope: Applicability): seq<Finding> {
    if matched == [] then []
    else
      var (a, m) := matched[|matched| - 1];
      FromMatches(matched[..|matched| - 1], site, scope) + [NewFinding(a, site.component, site.root, site.chain, m, scope)]
  }

  function FromDeclared(advisories: seq<Advisory>, ids: seq<string>, site: Site, m: MatchedIdentity): seq<Finding> {
    if ids == [] then []
    else
      FromDeclared(advisories, ids[..|ids| - 1], site, m) +
      [DeclaredFinding(advisories, ids[|ids| - 1], site.component, site.root, site.chain, m)]
  }

  /** The findings of one package at one site. */
  function SiteFindings(advisories: seq<Advisory>, item: EvidencedPackage, site: Site): seq<Finding> {
    FromMatches(MatchedAdvisories(item.package, advisories), site, Scope(item.evidence)) +
    FromDeclared(advisories, DeclaredIds(item.package), site, DeclaredIdentity(item.package))
  }

  function PackageFindings(advisories: seq<Advisory>, item: EvidencedPackage, sites: seq<Site>): seq<Finding> {
    if sites == [] then []
    else PackageFindings(advisories, item, sites[..|sites| - 1]) + SiteFindings(advisories, item, sites[|sites| - 1])
  }

  function ComponentFindings(advisories: seq<Advisory>, packages: seq<EvidencedPackage>, sites: seq<Site>): seq<Finding> {
    if packages == [] then []
    else
      ComponentFindings(advisories, packages[..|packages| - 1], sites) +
      PackageFindings(advisories, packages[|packages| - 1], sites)
  }

  lemma Prefix<T>(s: seq<T>, i: int)
    requires 0 <= i < |s|
    ensures s[..i + 1][..|s[..i + 1]| - 1] == s[..i] && s[..i + 1][|s[..i + 1]| - 1] == s[i]
    ensures s[..|s|] == s
  {
  }

  lemma Assoc<T>(a: seq<T>, b: seq<T>, c: seq<T>)
    ensures (a + b) + c == a + (b + c)
  {
  }

  /** The nested loops of the scan over packages, roots and advisories. */
  method RaiseFindings(advisories: seq<Advisory>, packages: seq<EvidencedPackage>, sites: seq<Site>, findings0: seq<Finding>)
    returns (findings: seq<Finding>)
    ensures findings == findings0 + ComponentFindings(advisories, packages, sites)
  {
    findings := findings0;
    for i := 0 to |packages|
      invariant findings == findings0 + ComponentFindings(advisories, packages[..i], sites)
    {
      findings := RaiseForPackage(advisories, packages[i], sites, findings);
      Prefix(packages, i);
      Assoc(findings0, ComponentFindings(advisories, packages[..i], sites), PackageFindings(advisories, packages[i], sites));
    }
    assert packages[..|packages|] == packages;
  }

  method RaiseForPackage(advisories: seq<Advisory>, item: EvidencedPackage, sites: seq<Site>, findings0: seq<Finding>)
    returns (findings: seq<Finding>)
    ensures findings == findings0 + PackageFindings(advisories, item, sites)
  {
    var matched := MatchedAdvisories(item.package, advisories);
    var declared := DeclaredIds(item.package);
    findings := findings0;
    for i := 0 to |sites|
      invariant findings == findings0 + PackageFindings(advisories, item, sites[..i])
    {
      findings := RaiseAt(advisories, item, sites[i], matched, declared, findings);
      Prefix(sites, i);
      Assoc(findings0, PackageFindings(advisories, item, sites[..i]), SiteFindings(advisories, item, sites[i]));
    }
    assert sites[..|sites|] == sites;
  }

  method RaiseAt(advisories: seq<Advisory>, item: EvidencedPackage, site: Site,
                 matched: seq<(Advisory, MatchedIdentity)>, declared: seq<string>, findings0: seq<Finding>)
    returns (findings: seq<Finding>)
    requires matched == MatchedAdvisories(item.package, advisories) && declared == DeclaredIds(item.package)
    ensures findings == findings0 + SiteFindings(advisories, item, site)
  {
    findings := PushMatches(matched, site, Scope(item.evidence), findings0);
    Assoc(findings0, FromMatches(matched, site, Scope(item.evidence)),
          FromDeclared(advisories, declared, site, DeclaredIdentity(item.package)));
    findings := PushDeclared(advisories, declared, site, DeclaredIdentity(item.package), findings);
  }

  method PushMatches(matched: seq<(Advisory, MatchedIdentity)>, site: Site, scope: Applicability, findings0: seq<Finding>)
    returns (findings: seq<Finding>)
    ensures findings == findings0 + FromMatches(matched, site, scope)
  {
    findings := findings0;
    for i := 0 to |matched|
      invariant findings == findings0 + FromMatches(matched[..i], site, scope)
    {
      var f := NewFinding(matched[i].0, site.component, site.root, site.chain, matched[i].1, scope);
      findings := findings + [f];
      Prefix(matched, i);
      Assoc(findings0, FromMatches(matched[..i], site, scope), [f]);
    }
    assert matched[..|matched|] == matched;
  }

  method PushDeclared(advisories: seq<Advisory>, ids: seq<string>, site: Site, m: MatchedIdentity, findings0: seq<Finding>)
    returns (findings: seq<Finding>)
    ensures findings == findings0 + FromDeclared(advisories, ids, site, m)
  {
    findings := findings0;
    for i := 0 to |ids|
      invariant findings == findings0 + FromDeclared(advisories, ids[..i], site, m)
    {
      var f := DeclaredFinding(advisories, ids[i], site.component, site.root, site.chain, m);
      findings := findings + [f];
      Prefix(ids, i);
      Assoc(findings0, FromDeclared(advisories, ids[..i], site, m), [f]);
    }
    assert ids[..|ids|] == ids;
  }

  // --- what is raised ---

  /** An advisory in the snapshot targets an identity of this package. */
  ghost predicate TargetsPackage(advisories: seq<Advisory>, item: EvidencedPackage, id: string, m: MatchedIdentity) {
    HasIdentity(item.package, m) && exists a :: a in advisories && m in a.targets && a.id == id
  }

  ghost predicate DeclaresVulnerable(item: EvidencedPackage, id: string, m: MatchedIdentity) {
    && item.package.nixpkgs.Some?
    && id in item.package.nixpkgs.value.knownVulnerabilities
    && m == Nixpkgs(item.package.nixpkgs.value.attribute, item.package.nixpkgs.value.version)
  }

  /** The package gives cause for a finding on this advisory, identity and applicability: it is
      confirmed when an advisory targets the package on evidence other than nixpkgs metadata. */
  ghost predicate Raises(advisories: seq<Advisory>, item: EvidencedPackage, id: string, m: MatchedIdentity, app: Applicability) {
    || (TargetsPackage(advisories, item, id, m) && (app.Confirmed? <==> !item.evidence.NixpkgsMetadata?))
    || (DeclaresVulnerable(item, id, m) && app == UnverifiedOutputScope)
  }

  lemma {:induction false} InMatchedTargets(package: PackageIdentity, a: Advisory, targets: seq<MatchedIdentity>, x: (Advisory, MatchedIdentity))
    ensures x in MatchedTargets(package, a, targets) <==>
      x.0 == a && x.1 in targets && HasIdentity(package, x.1)
  {
    if targets != [] {
      MatchesIff(package, targets[0], x.1);
      InMatchedTargets(package, a, targets[1..], x);
    }
  }

  lemma {:induction false} InMatchedAdvisories(package: PackageIdentity, advisories: seq<Advisory>, x: (Advisory, MatchedIdentity))
    ensures x in MatchedAdvisories(package, advisories) <==>
      x.0 in advisories && x.1 in x.0.targets && HasIdentity(package, x.1)
  {
    if advisories != [] {
      InMatchedTargets(package, advisories[0], advisories[0].targets, x);
      InMatchedAdvisories(package, advisories[1..], x);
    }
  }

  lemma {:induction false} InFromMatches(matched: seq<(Advisory, MatchedIdentity)>, site: Site, scope: Applicability, f: Finding)
    ensures f in FromMatches(matched, site, scope) <==>
      exists x :: x in matched && f == NewFinding(x.0, site.component, site.root, site.chain, x.1, scope)
  {
    if matched != [] {
      var init := matched[..|matched| - 1];
      assert matched == init + [matched[|matched| - 1]];
      InFromMatches(init, site, scope, f);
    }
  }

  lemma {:induction false} InFromDeclared(advisories: seq<Advisory>, ids: seq<string>, site: Site, m: MatchedIdentity, f: Finding)
    ensures f in FromDeclared(advisories, ids, site, m) <==>
      exists id :: id in ids && f == DeclaredFinding(advisories, id, site.component, site.root, site.chain, m)
  {
    if ids != [] {
      var init := ids[..|ids| - 1];
      assert ids == init + [ids[|ids| - 1]];
      InFromDeclared(advisories, init, site, m, f);
    }
  }

  /** The finding is described by the advisory it is about, or, when the snapshot has none, as
      declared by nixpkgs. */
  ghost predicate Described(advisories: seq<Advisory>, f: Finding) {
    || (exists a :: a in advisories && DescribedBy(a, f))
    || (&& (forall a :: a in advisories ==> a.id != f.advisoryId)
        && f.aliases == [] && f.severity == None && f.summary == Some("declared by nixpkgs meta.knownVulnerabilities"))
  }

  ghost predicate DescribedBy(a: Advisory, f: Finding) {
    && a.id == f.advisoryId && f.severity == a.severity && f.summary == a.summary
    && Rising(f.aliases) && forall x :: x in f.aliases <==> x in a.aliases
  }

  lemma NewFindingDescribed(a: Advisory, component: string, root: string, chain: seq<string>, matched: MatchedIdentity,
                            applicability: Applicability)
    ensures DescribedBy(a, NewFinding(a, component, root, chain, matched, applicability))
  {
    SortedSet(a.aliases);
  }

  lemma DeclaredDescribed(advisories: seq<Advisory>, id: string, component: string, root: string, chain: seq<string>,
                          matched: MatchedIdentity)
    ensures Described(advisories, DeclaredFinding(advisories, id, component, root, chain, matched))
  {
    var known := FindAdvisory(advisories, id);
    if known.Some? { NewFindingDescribed(known.value, component, root, chain, matched, UnverifiedOutputScope); }
  }

  /** The finding sits at the site and the package gives cause for it. */
  ghost predicate RaisedAt(advisories: seq<Advisory>, item: EvidencedPackage, site: Site, f: Finding) {
    && f.component == site.component && f.root == site.root && f.path == site.chain
    && Raises(advisories, item, f.advisoryId, f.matched, f.applicability)
    && Described(advisories, f)
  }

  lemma SiteFindingsSound(advisories: seq<Advisory>, item: EvidencedPackage, site: Site, f: Finding)
    requires f in SiteFindings(advisories, item, site)
    ensures RaisedAt(advisories, item, site, f)
  {
    var matched := MatchedAdvisories(item.package, advisories);
    if f in FromMatches(matched, site, Scope(item.evidence)) {
      InFromMatches(matched, site, Scope(item.evidence), f);
      var x :| x in matched && f == NewFinding(x.0, site.component, site.root, site.chain, x.1, Scope(item.evidence));
      InMatchedAdvisories(item.package, advisories, x);
      assert TargetsPackage(advisories, item, f.advisoryId, f.matched);
      NewFindingDescribed(x.0, site.component, site.root, site.chain, x.1, Scope(item.evidence));
    } else {
      InFromDeclared(advisories, DeclaredIds(item.package), site, DeclaredIdentity(item.package), f);
      DeclaredDescribed(advisories, f.advisoryId, site.component, site.root, site.chain, f.matched);
    }
  }

  /** Every cause a package gives is raised at every site. */
  lemma SiteFindingsComplete(advisories: seq<Advisory>, item: EvidencedPackage, site: Site,
                             id: string, m: MatchedIdentity, app: Applicability) returns (f: Finding)
    requires Raises(advisories, item, id, m, app)
    ensures f in SiteFindings(advisories, item, site)
    ensures KeyOf(f) == FindingKey(site.root, id, site.component, m) && f.applicability == app
  {
    if TargetsPackage(advisories, item, id, m) && app == Scope(item.evidence) {
      var a :| a in advisories && m in a.targets && a.id == id;
      f := NewFinding(a, site.component, site.root, site.chain, m, app);
      InMatchedAdvisories(item.package, advisories, (a, m));
      InFromMatches(MatchedAdvisories(item.package, advisories), site, app, f);
      assert (a, m) in MatchedAdvisories(item.package, advisories);
    } else {
      f := DeclaredFinding(advisories, id, site.component, site.root, site.chain, m);
      InFromDeclared(advisories, DeclaredIds(item.package), site, m, f);
    }
  }

  lemma {:induction false} InPackageFindings(advisories: seq<Advisory>, item: EvidencedPackage, sites: seq<Site>, f: Finding)
    ensures f in PackageFindings(advisories, item, sites) <==>
      exists site :: site in sites && f in SiteFindings(advisories, item, site)
  {
    if sites != [] {
      var init, last := sites[..|sites| - 1], sites[|sites| - 1];
      assert forall x :: x in sites <==> x in init || x == last;
      InPackageFindings(advisories, item, init, f);
    }
  }

  lemma {:induction false} ComponentFindingsSound(advisories: seq<Advisory>, packages: seq<EvidencedPackage>, sites: seq<Site>, f: Finding)
    returns (item: EvidencedPackage)
    requires f in ComponentFindings(advisories, packages, sites)
    ensures item in packages && f in PackageFindings(advisories, item, sites)
  {
    var init, last := packages[..|packages| - 1], packages[|packages| - 1];
    if f in ComponentFindings(advisories, init, sites) {
      item := ComponentFindingsSound(advisories, init, sites, f);
    } else {
      item := last;
    }
  }

  lemma {:induction false} ComponentFindingsComplete(advisories: seq<Advisory>, packages: seq<EvidencedPackage>, sites: seq<Site>,
                                                     item: EvidencedPackage, f: Finding)
    requires item in packages && f in PackageFindings(advisories, item, sites)
    ensures f in ComponentFindings(advisories, packages, sites)
  {
    var init, last := packages[..|packages| - 1], packages[|packages| - 1];
    assert packages == init + [last];
    if item in init { ComponentFindingsComplete(advisories, init, sites, item, f); }
  }
}
