/** A scan whose report its own validator refuses: the root's store path is identified by a
    package url, and it references the store path that spells the resulting package id out. */
module CveCollision {
  import opened Wrappers
  import opened Text
  import opened Digraph
  import opened NixClosure
  import opened CveModel
  import opened CveScan
  import opened CveEvidence
  import B = CveBuild
  import C = CveCanonical
  import F = CveFields
  import R = CveReport

  // --- the inputs ---

  function Package(purl: string): EvidencedPackage {
    EvidencedPackage(PackageIdentity("lib", "1", [purl], [], [], None), ArtifactSbom("digest", "cyclonedx"))
  }

  function Colliding(path: string, purl: string): Inputs {
    var other := path + "#" + purl;
    Inputs(
      map[path := PathInfo(1, "/nix/store", [other], "", 0), other := PathInfo(1, "/nix/store", [], "", 0)],
      map["app" := SecurityRoot("app", "app", path, "team", 24)],
      map[path := Identified([Package(purl)])],
      Snapshot("snapshot", "today", []),
      VexDocument(1, "now", []),
      "now",
      _ => Some(0))
  }

  lemma NotBlank(s: string)
    requires s != "" && !IsWhitespace(s[0])
    ensures !Blank(s)
  {
  }

  lemma OnePackage(p: PackageIdentity, e: IdentityEvidence)
    requires ValidPackage(p) && ValidEvidence(e)
    ensures ValidIdentity(Identified([EvidencedPackage(p, e)]))
  {
  }

  lemma OnePurl(name: string, version: string, purl: string)
    requires !Blank(name) && !Blank(version) && ValidPurl(purl)
    ensures ValidPackage(PackageIdentity(name, version, [purl], [], [], None))
  {
  }

  lemma PackageIsValid(purl: string)
    requires ValidPurl(purl)
    ensures ValidIdentity(Identified([Package(purl)]))
  {
    NotBlank("lib");
    NotBlank("1");
    NotBlank("digest");
    NotBlank("cyclonedx");
    OnePurl("lib", "1", purl);
    OnePackage(PackageIdentity("lib", "1", [purl], [], [], None), ArtifactSbom("digest", "cyclonedx"));
  }

  lemma GraphIsValid(path: string, purl: string)
    requires StartsWith(path, "/nix/store/")
    ensures ValidGraph(Colliding(path, purl).graph)
  {
    var graph, other := Colliding(path, purl).graph, path + "#" + purl;
    assert "/nix/store" + "/" == "/nix/store/";
    assert other[..11] == path[..11];
    assert ValidEntry(graph, path, graph[path]) && ValidEntry(graph, other, graph[other]);
  }

  lemma CollidingOk(path: string, purl: string)
    requires StartsWith(path, "/nix/store/")
    ensures InputsOk(Colliding(path, purl))
  {
    var inp := Colliding(path, purl);
    NotBlank("snapshot");
    NotBlank("today");
    NotBlank("team");
    GraphIsValid(path, purl);
    assert RootsValid(inp.graph, inp.roots);
    assert inp.roots != map[] by { assert "app" in inp.roots; }
    ValidGraphSuffices(inp);
  }

  lemma CollidingReachesBoth(path: string, purl: string)
    ensures C.ReachesBoth(Colliding(path, purl), "app", path, path + "#" + purl)
  {
    var inp, other := Colliding(path, purl), path + "#" + purl;
    var g := References(inp.graph);
    ReachesSelf(g, path);
    assert Edge(g, path, other) by { assert inp.graph[path].references[0] == other; }
    ReachesStep(g, path, path, other);
  }

  lemma CollidingIsAmbiguous(path: string, purl: string)
    requires ValidPurl(purl)
    ensures !C.Unambiguous(Colliding(path, purl))
  {
    var inp, other := Colliding(path, purl), path + "#" + purl;
    var items := [Package(purl)];
    PackageIsValid(purl);
    assert EffectiveIdentity(inp.identities, path) == Identified(items);
    assert items[0] in items && FiledAs(items[0].package, purl);
    assert C.HasExact(EffectiveIdentity(inp.identities, path), purl);
    assert C.Continued(EffectiveIdentity(inp.identities, path), EffectiveIdentity(inp.identities, other), purl);
    assert other == PackageId(path, purl) && C.Ambiguous(inp, path, other);
    CollidingReachesBoth(path, purl);
  }

  method CollidingScan(path: string, purl: string) returns (scan: ScanReport)
    requires B.Realized(path)
    ensures IsScan(Colliding(path, purl), scan)
    ensures forall k :: k in scan.roots ==> B.Realized(scan.roots[k].path)
  {
    CollidingOk(path, purl);
    var scanned := Scan(Colliding(path, purl));
    scan := scanned.value;
  }

  /** The scan succeeds and every root is realized, but the report built from it is invalid. */
  method RefusedReport(path: string, purl: string) returns (inp: Inputs, scan: ScanReport, report: EvidenceReport)
    requires B.Realized(path) && ValidPurl(purl)
    ensures inp == Colliding(path, purl) && IsScan(inp, scan)
    ensures (forall k :: k in scan.roots ==> B.Realized(scan.roots[k].path)) && !R.ValidReport(report)
  {
    inp := Colliding(path, purl);
    scan := CollidingScan(path, purl);
    var built := B.BuildReport(inp, scan);
    CollidingIsAmbiguous(path, purl);
    report := built.value;
  }

  /** One such input for each way of naming a store path and a package. */
  method RefusedExample(path: string, hash: string, name: string, purl: string, kind: string, lib: string, version: string)
    returns (inp: Inputs, scan: ScanReport, report: EvidenceReport)
    requires B.IsStorePath(path, hash, name) && F.IsPurl(purl, kind, lib, version, "")
    ensures inp == Colliding(path, purl)
    ensures IsScan(inp, scan) && (forall k :: k in scan.roots ==> B.Realized(scan.roots[k].path)) && !R.ValidReport(report)
  {
    B.StorePathIsRealized(path, hash, name);
    F.PurlIsValid(purl, kind, lib, version, "");
    inp, scan, report := RefusedReport(path, purl);
  }
}
