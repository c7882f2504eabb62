/** The evidence report: one product per security root, with the packages, dependency edges and
    findings of everything the root reaches. */
module CveEvidence {
  import opened Wrappers
  import opened Ordering
  import opened Text
  import opened CveModel
  import opened CveScan

  const REPORT_SCHEMA_VERSION: nat := 1

  datatype EvidenceEntry = EvidenceEntry(source: string, value: string)

  datatype PackageCoverage = IdentifiedPackage | NonPackageNode(kind: string) | UnknownNode(reason: string)

  datatype PackageEvidence = PackageEvidence(
    id: string,
    name: string,
    version: string,
    exactIdentity: string,
    purl: Option<string>,
    storePaths: seq<string>,
    coverage: PackageCoverage,
    evidence: seq<EvidenceEntry>)

  datatype DependencyEdge = DependencyEdge(source: string, target: string)

  datatype FindingStatus = AffectedFinding | NotAffectedFinding | FixedFinding | InvestigatedFinding

  datatype FindingEvidence = FindingEvidence(
    advisoryId: string,
    packageId: string,
    matched: MatchedIdentity,
    title: string,
    status: FindingStatus,
    rootPaths: seq<seq<string>>,
    vexStatement: Option<string>)

  datatype RootEvidence = RootEvidence(id: string, attribute: string, storePath: string)

  datatype ProductReport = ProductReport(
    id: string,
    roots: seq<RootEvidence>,
    packages: seq<PackageEvidence>,
    edges: seq<DependencyEdge>,
    findings: seq<FindingEvidence>)

  datatype EvidenceReport = EvidenceReport(schemaVersion: nat, status: ScanStatus, products: seq<ProductReport>)

  // --- packages of one component ---

  /** The identity a package is filed under: its first purl, else CPE, else commit, else its
      nixpkgs attribute. A package with none of them has no place in a report. */
  function ExactIdentity(p: PackageIdentity): Option<string> {
    if p.purls != [] then Some(p.purls[0])
    else if p.cpes != [] then Some(p.cpes[0])
    else if p.commits != [] then Some(p.commits[0].repository + "@" + p.commits[0].commit)
    else if p.nixpkgs.Some? then
      Some("nixpkgs:" + p.nixpkgs.value.attribute + "@" + p.nixpkgs.value.version + "#" + p.nixpkgs.value.output)
    else None
  }

  /** The package is filed under this identity: the first of its purls, of its CPEs, of its
      commits, or its nixpkgs attribute, whichever kind it has first. */
  ghost predicate FiledAs(p: PackageIdentity, e: string) {
    || (p.purls != [] && e == p.purls[0])
    || (p.purls == [] && p.cpes != [] && e == p.cpes[0])
    || (p.purls == [] && p.cpes == [] && p.commits != [] && e == p.commits[0].repository + "@" + p.commits[0].commit)
    || (p.purls == [] && p.cpes == [] && p.commits == [] && p.nixpkgs.Some? &&
        e == "nixpkgs:" + p.nixpkgs.value.attribute + "@" + p.nixpkgs.value.version + "#" + p.nixpkgs.value.output)
  }

  lemma FiledAsIff(p: PackageIdentity, e: string)
    ensures ExactIdentity(p) == Some(e) <==> FiledAs(p, e)
  {
  }

  /** Every package of the component has an identity to be filed under. */
  predicate Usable(identity: ComponentIdentity) {
    identity.Identified? ==> forall x :: x in identity.packages ==> ExactIdentity(x.package).Some?
  }

  function Entry(e: IdentityEvidence): EvidenceEntry {
    match e
    case NixpkgsMetadata(revision, attribute) => EvidenceEntry("nixpkgs-metadata", revision + ":" + attribute)
    case ArtifactSbom(digest, format) => EvidenceEntry("artifact-sbom:" + format, digest)
    case ArtifactMetadata(path, digest, extractor) => EvidenceEntry("artifact-metadata:" + extractor + ":" + path, digest)
  }

  function PackageId(path: string, exact: string): string {
    path + "#" + exact
  }

  /** The packages of a component filed under one exact identity, in order. */
  function WithExact(items: seq<EvidencedPackage>, exact: string): seq<EvidencedPackage> {
    if items == [] then []
    else
      var n := |items| - 1;
      WithExact(items[..n], exact) + (if ExactIdentity(items[n].package) == Some(exact) then [items[n]] else [])
  }

  function Exacts(items: seq<EvidencedPackage>): set<string> {
    if items == [] then {}
    else
      var n := |items| - 1;
      var exact := ExactIdentity(items[n].package);
      Exacts(items[..n]) + (if exact.Some? then {exact.value} else {})
  }

  lemma {:induction false} ExactsIff(items: seq<EvidencedPackage>, e: string)
    ensures e in Exacts(items) <==> WithExact(items, e) != []
  {
    if items != [] { ExactsIff(items[..|items| - 1], e); }
  }

  lemma {:induction false} ItemFiled(items: seq<EvidencedPackage>, item: EvidencedPackage)
    requires item in items && ExactIdentity(item.package).Some?
    ensures ExactIdentity(item.package).value in Exacts(items)
  {
    var n := |items| - 1;
    assert items == items[..n] + [items[n]];
    if item in items[..n] { ItemFiled(items[..n], item); }
  }

  /** The identities of a list of packages. */
  lemma {:induction false} ExactsAre(items: seq<EvidencedPackage>, e: string)
    ensures e in Exacts(items) <==> exists item :: item in items && FiledAs(item.package, e)
  {
    if items != [] {
      var n := |items| - 1;
      assert items == items[..n] + [items[n]];
      ExactsAre(items[..n], e);
      FiledAsIff(items[n].package, e);
    }
  }

  /** What an entry says about the evidence it stands for. */
  ghost predicate IsEntry(x: EvidenceEntry, e: IdentityEvidence) {
    || (e.NixpkgsMetadata? && x.source == "nixpkgs-metadata" && x.value == e.revision + ":" + e.attribute)
    || (e.ArtifactSbom? && x.source == "artifact-sbom:" + e.format && x.value == e.digest)
    || (e.ArtifactMetadata? && x.source == "artifact-metadata:" + e.extractor + ":" + e.path && x.value == e.digest)
  }

  lemma EntryIs(x: EvidenceEntry, e: IdentityEvidence)
    ensures x == Entry(e) <==> IsEntry(x, e)
  {
  }

  lemma {:induction false} InWithExact(items: seq<EvidencedPackage>, exact: string, item: EvidencedPackage)
    ensures item in WithExact(items, exact) <==> item in items && FiledAs(item.package, exact)
  {
    if items != [] {
      var n := |items| - 1;
      assert items == items[..n] + [items[n]];
      InWithExact(items[..n], exact, item);
      FiledAsIff(items[n].package, exact);
    }
  }

  /** The first package filed under the identity. */
  ghost predicate FirstFiled(items: seq<EvidencedPackage>, exact: string, j: int) {
    0 <= j < |items| && FiledAs(items[j].package, exact) && forall i :: 0 <= i < j ==> !FiledAs(items[i].package, exact)
  }

  lemma {:induction false} FirstIsFirst(items: seq<EvidencedPackage>, exact: string) returns (j: int)
    requires WithExact(items, exact) != []
    ensures FirstFiled(items, exact, j) && WithExact(items, exact)[0] == items[j]
  {
    var n := |items| - 1;
    FiledAsIff(items[n].package, exact);
    if WithExact(items[..n], exact) == [] {
      j := n;
      forall i | 0 <= i < n ensures !FiledAs(items[i].package, exact) {
        InWithExact(items[..n], exact, items[i]);
        assert items[i] == items[..n][i];
      }
    } else {
      j := FirstIsFirst(items[..n], exact);
    }
  }

  lemma {:induction false} InEntries(items: seq<EvidencedPackage>, x: EvidenceEntry)
    ensures x in Entries(items) <==> exists item :: item in items && IsEntry(x, item.evidence)
  {
    if items != [] {
      var n := |items| - 1;
      assert items == items[..n] + [items[n]];
      InEntries(items[..n], x);
      EntryIs(x, items[n].evidence);
    }
  }

  function Entries(items: seq<EvidencedPackage>): seq<EvidenceEntry> {
    if items == [] then [] else Entries(items[..|items| - 1]) + [Entry(items[|items| - 1].evidence)]
  }

  /** One package per exact identity, described by the first and evidenced by all. */
  function Merged(path: string, exact: string, items: seq<EvidencedPackage>): PackageEvidence
    requires items != []
  {
    var first := items[0].package;
    PackageEvidence(PackageId(path, exact), first.name, first.version, exact,
                    if first.purls != [] then Some(first.purls[0]) else None, [path], IdentifiedPackage, Entries(items))
  }

  function Node(path: string, coverage: PackageCoverage, evidence: seq<EvidenceEntry>): PackageEvidence {
    PackageEvidence(path, path, "0", path, None, [path], coverage, evidence)
  }

  function ReasonText(r: UnknownReason): (s: string)
    ensures !Blank(s)
  {
    var s := match r
      case MissingMetadata => "MissingMetadata"
      case InvalidEvidence => "InvalidEvidence"
      case AmbiguousIdentity => "AmbiguousIdentity"
      case UnsupportedArtifact => "UnsupportedArtifact";
    assert !IsWhitespace(s[0]);
    s
  }

  function MergedAll(path: string, items: seq<EvidencedPackage>, exacts: seq<string>): (r: seq<PackageEvidence>)
    requires forall e :: e in exacts ==> WithExact(items, e) != []
    ensures |r| == |exacts| && forall i :: 0 <= i < |r| ==> r[i] == Merged(path, exacts[i], WithExact(items, exacts[i]))
  {
    if exacts == [] then []
    else [Merged(path, exacts[0], WithExact(items, exacts[0]))] + MergedAll(path, items, exacts[1..])
  }

  function MergedByIdentity(path: string, items: seq<EvidencedPackage>): (r: seq<PackageEvidence>)
    ensures |r| == |Ascending(Exacts(items))|
  {
    var exacts := Ascending(Exacts(items));
    assert forall e :: e in exacts ==> WithExact(items, e) != [] by {
      forall e | e in exacts ensures WithExact(items, e) != [] { ExactsIff(items, e); }
    }
    MergedAll(path, items, exacts)
  }

  /** A node for the store path itself and, when it is identified, its packages. */
  function Packages(path: string, identity: ComponentIdentity): seq<PackageEvidence> {
    match identity
    case Identified(items) => [Node(path, NonPackageNode("runtime-store-node"), [])] + MergedByIdentity(path, items)
    case NonPackage(reason, evidence) => [Node(path, NonPackageNode(reason), [Entry(evidence)])]
    case Unknown(why) => [Node(path, UnknownNode(ReasonText(why)), [])]
  }

  ghost predicate IndexedAt(path: string, items: seq<EvidencedPackage>, byIdentity: map<string, PackageEvidence>, e: string) {
    var filed := WithExact(items, e);
    (e in byIdentity <==> filed != []) && (e in byIdentity ==> byIdentity[e] == Merged(path, e, filed))
  }

  /** The index while packages are being filed under their identities. */
  ghost predicate Indexed(path: string, items: seq<EvidencedPackage>, byIdentity: map<string, PackageEvidence>) {
    forall e :: IndexedAt(path, items, byIdentity, e)
  }

  lemma MergedGrows(path: string, exact: string, items: seq<EvidencedPackage>, item: EvidencedPackage)
    ensures
      var grown := Merged(path, exact, items + [item]);
      && (items == [] ==> grown == Merged(path, exact, [item]))
      && (items != [] ==> grown == Merged(path, exact, items).(evidence := Entries(items) + [Entry(item.evidence)]))
  {
    assert (items + [item])[..|items|] == items;
    if items == [] { assert items + [item] == [item]; }
  }

  /** Filing one more package touches its own identity and no other. */
  lemma FileNext(path: string, items: seq<EvidencedPackage>, byIdentity: map<string, PackageEvidence>, item: EvidencedPackage,
                 exact: string, filed: PackageEvidence)
    requires Indexed(path, items, byIdentity) && ExactIdentity(item.package) == Some(exact)
    requires filed == if exact in byIdentity
                      then byIdentity[exact].(evidence := byIdentity[exact].evidence + [Entry(item.evidence)])
                      else Merged(path, exact, [item])
    ensures Indexed(path, items + [item], byIdentity[exact := filed])
  {
    var all, after := items + [item], byIdentity[exact := filed];
    assert all[..|items|] == items && all[|items|] == item;
    forall e ensures IndexedAt(path, all, after, e) {
      assert IndexedAt(path, items, byIdentity, e);
      if e == exact {
        MergedGrows(path, e, WithExact(items, e), item);
        assert WithExact(all, e) == WithExact(items, e) + [item];
      } else {
        assert WithExact(all, e) == WithExact(items, e) + [] == WithExact(items, e);
      }
    }
  }

  /** `package_evidence` */
  method PackageEvidenceOf(path: string, identity: ComponentIdentity) returns (r: seq<PackageEvidence>)
    requires Usable(identity)
    ensures r == Packages(path, identity)
  {
    if !identity.Identified? { return Packages(path, identity); }
    var items := identity.packages;
    var byIdentity: map<string, PackageEvidence> := map[];
    for i := 0 to |items|
      invariant Indexed(path, items[..i], byIdentity)
    {
      var exact, entry := ExactIdentity(items[i].package).value, Entry(items[i].evidence);
      var filed := if exact in byIdentity then byIdentity[exact].(evidence := byIdentity[exact].evidence + [entry])
                   else Merged(path, exact, [items[i]]);
      FileNext(path, items[..i], byIdentity, items[i], exact, filed);
      assert items[..i + 1] == items[..i] + [items[i]];
      byIdentity := byIdentity[exact := filed];
    }
    assert items[..|items|] == items;
    var values := Values(byIdentity);
    ValuesAreMerged(path, items, byIdentity, values);
    r := [Node(path, NonPackageNode("runtime-store-node"), [])] + values;
  }

  lemma IndexedKeys(path: string, items: seq<EvidencedPackage>, byIdentity: map<string, PackageEvidence>)
    requires Indexed(path, items, byIdentity)
    ensures byIdentity.Keys == Exacts(items)
  {
    forall e ensures e in byIdentity.Keys <==> e in Exacts(items) {
      ExactsIff(items, e);
      assert IndexedAt(path, items, byIdentity, e);
    }
  }

  lemma MergedEntry(path: string, items: seq<EvidencedPackage>, i: int)
    requires 0 <= i < |MergedByIdentity(path, items)|
    ensures
      var e := Ascending(Exacts(items))[i];
      WithExact(items, e) != [] && MergedByIdentity(path, items)[i] == Merged(path, e, WithExact(items, e))
  {
    var exacts := Ascending(Exacts(items));
    assert exacts[i] in exacts;
    forall e | e in exacts ensures WithExact(items, e) != [] { ExactsIff(items, e); }
    assert MergedByIdentity(path, items) == MergedAll(path, items, exacts);
  }

  ghost predicate ReadsAs(s: string, why: UnknownReason) {
    && (why == MissingMetadata <==> s == "MissingMetadata") && (why == InvalidEvidence <==> s == "InvalidEvidence")
    && (why == AmbiguousIdentity <==> s == "AmbiguousIdentity") && (why == UnsupportedArtifact <==> s == "UnsupportedArtifact")
  }

  /** The node of a store path. */
  ghost predicate NodeIs(identity: ComponentIdentity, path: string, p: PackageEvidence) {
    && p.id == path && p.name == path && p.version == "0" && p.exactIdentity == path && p.purl == None && p.storePaths == [path]
    && match identity
       case Identified(_) => p.coverage == NonPackageNode("runtime-store-node") && p.evidence == []
       case NonPackage(reason, e) => p.coverage == NonPackageNode(reason) && |p.evidence| == 1 && IsEntry(p.evidence[0], e)
       case Unknown(why) => p.coverage.UnknownNode? && ReadsAs(p.coverage.reason, why) && p.evidence == []
  }

  /** A package: described by the first item with its identity and evidenced by all of them. */
  ghost predicate PackageIs(items: seq<EvidencedPackage>, path: string, p: PackageEvidence) {
    && p.id == path + "#" + p.exactIdentity && p.storePaths == [path] && p.coverage == IdentifiedPackage
    && (exists j :: FirstFiled(items, p.exactIdentity, j) && NamedAfter(items[j].package, p))
    && (forall x :: x in p.evidence <==>
          exists item :: item in items && FiledAs(item.package, p.exactIdentity) && IsEntry(x, item.evidence))
  }

  ghost predicate NamedAfter(first: PackageIdentity, p: PackageEvidence) {
    && p.name == first.name && p.version == first.version
    && (if first.purls == [] then p.purl == None else p.purl == Some(first.purls[0]))
  }

  lemma MergedIs(path: string, items: seq<EvidencedPackage>, e: string)
    requires WithExact(items, e) != []
    ensures PackageIs(items, path, Merged(path, e, WithExact(items, e)))
  {
    var filed := WithExact(items, e);
    var p := Merged(path, e, filed);
    var j := FirstIsFirst(items, e);
    assert NamedAfter(items[j].package, p);
    forall x ensures x in p.evidence <==> exists item :: item in items && FiledAs(item.package, e) && IsEntry(x, item.evidence) {
      InEntries(filed, x);
      if item :| item in filed && IsEntry(x, item.evidence) { InWithExact(items, e, item); }
      if item :| item in items && FiledAs(item.package, e) && IsEntry(x, item.evidence) { InWithExact(items, e, item); }
    }
  }

  /** Every package of a component is its node, or stands for one of its identities. */
  lemma PackagesAre(path: string, identity: ComponentIdentity, p: PackageEvidence)
    requires p in Packages(path, identity)
    ensures NodeIs(identity, path, p) || (identity.Identified? && PackageIs(identity.packages, path, p))
  {
    if identity.NonPackage? { EntryIs(Entry(identity.evidence), identity.evidence); }
    if identity.Identified? && p in MergedByIdentity(path, identity.packages) {
      var merged := MergedByIdentity(path, identity.packages);
      var i :| 0 <= i < |merged| && merged[i] == p;
      MergedEntry(path, identity.packages, i);
      MergedIs(path, identity.packages, Ascending(Exacts(identity.packages))[i]);
    }
  }

  lemma ValuesAreMerged(path: string, items: seq<EvidencedPackage>, byIdentity: map<string, PackageEvidence>, r: seq<PackageEvidence>)
    requires Indexed(path, items, byIdentity) && |r| == |Ascending(byIdentity.Keys)|
    requires forall i :: 0 <= i < |r| ==> Ascending(byIdentity.Keys)[i] in byIdentity && r[i] == byIdentity[Ascending(byIdentity.Keys)[i]]
    ensures r == MergedByIdentity(path, items)
  {
    IndexedKeys(path, items, byIdentity);
    forall i | 0 <= i < |r| ensures r[i] == MergedByIdentity(path, items)[i] {
      MergedEntry(path, items, i);
      assert IndexedAt(path, items, byIdentity, Ascending(byIdentity.Keys)[i]);
    }
  }

  /** `into_values`: the values in key order. */
  method Values(byIdentity: map<string, PackageEvidence>) returns (r: seq<PackageEvidence>)
    ensures |r| == |Ascending(byIdentity.Keys)|
    ensures forall i :: 0 <= i < |r| ==> Ascending(byIdentity.Keys)[i] in byIdentity && r[i] == byIdentity[Ascending(byIdentity.Keys)[i]]
  {
    var keys := Ascending(byIdentity.Keys);
    r := [];
    for i := 0 to |keys|
      invariant |r| == i && forall j :: 0 <= j < i ==> keys[j] in byIdentity && r[j] == byIdentity[keys[j]]
    {
      assert keys[i] in keys;
      r := r + [byIdentity[keys[i]]];
    }
  }
}
