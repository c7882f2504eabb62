/** Assembling, canonicalising and validating the evidence report. */
module CveReport {
  import opened Wrappers
  import opened Keyed
  import opened Text
  import opened CveEvidence

  // --- validation ---

  function RootId(r: RootEvidence): string { r.id }

  function NodeId(p: PackageEvidence): string { p.id }

  function ProductId(p: ProductReport): string { p.id }

  ghost predicate Known(p: ProductReport, id: string) {
    HasId(p.packages, NodeId, id)
  }

  ghost predicate ValidPath(p: ProductReport, path: seq<string>) {
    && path != [] && HasId(p.roots, RootId, path[0])
    && forall i :: 1 <= i < |path| ==> Known(p, path[i])
  }

  ghost predicate ValidFinding(p: ProductReport, f: FindingEvidence) {
    Known(p, f.packageId) && forall path :: path in f.rootPaths ==> ValidPath(p, path)
  }

  ghost predicate ValidEdge(p: ProductReport, e: DependencyEdge) {
    Known(p, e.source) && Known(p, e.target)
  }

  predicate Reasoned(p: PackageEvidence) {
    p.coverage.UnknownNode? ==> !Blank(p.coverage.reason)
  }

  /** Everything the report schema asks of a product besides distinct package ids. */
  ghost predicate WellLinked(p: ProductReport) {
    && DistinctBy(p.roots, RootId)
    && (forall e :: e in p.edges ==> ValidEdge(p, e))
    && (forall x :: x in p.packages ==> Reasoned(x))
    && (forall f :: f in p.findings ==> ValidFinding(p, f))
  }

  ghost predicate ValidProduct(p: ProductReport) {
    WellLinked(p) && DistinctBy(p.packages, NodeId)
  }

  ghost predicate ValidReport(r: EvidenceReport) {
    && r.schemaVersion == REPORT_SCHEMA_VERSION
    && DistinctBy(r.products, ProductId)
    && forall p :: p in r.products ==> ValidProduct(p)
  }

  datatype ReportError =
    | UnsupportedSchema(version: nat)
    | DuplicateProduct(id: string)
    | DuplicateRoots(id: string)
    | DuplicatePackages(id: string)
    | DanglingEdge(edge: DependencyEdge)
    | UnknownWithoutReason(id: string)
    | UnknownPackage(id: string)
    | EmptyRootPath(advisoryId: string)
    | UnknownRootId(id: string)
    | UnknownPathElement(id: string)
    | NotRealized(root: string)

  /** What each refusal of a path, a finding, a product or a report says is true of it. */
  ghost predicate PathDefect(p: ProductReport, f: FindingEvidence, path: seq<string>, e: ReportError) {
    match e
    case EmptyRootPath(id) => id == f.advisoryId && path == []
    case UnknownRootId(id) => path != [] && path[0] == id && !HasId(p.roots, RootId, id)
    case UnknownPathElement(id) => path != [] && id in path[1..] && !Known(p, id)
    case _ => false
  }

  ghost predicate FindingDefect(p: ProductReport, f: FindingEvidence, e: ReportError) {
    match e
    case UnknownPackage(id) => id == f.packageId && !Known(p, id)
    case _ => exists path :: path in f.rootPaths && PathDefect(p, f, path, e)
  }

  ghost predicate ProductDefect(p: ProductReport, e: ReportError) {
    match e
    case DuplicateRoots(id) => id == p.id && !DistinctBy(p.roots, RootId)
    case DuplicatePackages(id) => id == p.id && !DistinctBy(p.packages, NodeId)
    case DanglingEdge(edge) => edge in p.edges && (!Known(p, edge.source) || !Known(p, edge.target))
    case UnknownWithoutReason(id) => exists x :: x in p.packages && x.id == id && !Reasoned(x)
    case _ => exists f :: f in p.findings && FindingDefect(p, f, e)
  }

  ghost predicate ReportDefect(r: EvidenceReport, e: ReportError) {
    match e
    case UnsupportedSchema(version) => version == r.schemaVersion && version != REPORT_SCHEMA_VERSION
    case DuplicateProduct(id) => exists i, j :: 0 <= i < j < |r.products| && r.products[i].id == id && r.products[j].id == id
    case _ => exists p :: p in r.products && ProductDefect(p, e)
  }

  predicate OfFinding(e: ReportError) {
    e.UnknownPackage? || e.EmptyRootPath? || e.UnknownRootId? || e.UnknownPathElement?
  }

  predicate OfProduct(e: ReportError) {
    e.DuplicateRoots? || e.DuplicatePackages? || e.DanglingEdge? || e.UnknownWithoutReason? || OfFinding(e)
  }

  method ValidatePath(ghost p: ProductReport, roots: set<string>, packages: set<string>, f: FindingEvidence, path: seq<string>)
    returns (r: Result<(), ReportError>)
    requires roots == KeySet(p.roots, RootId) && packages == KeySet(p.packages, NodeId)
    ensures r.Ok? <==> ValidPath(p, path)
    ensures r.Err? ==> PathDefect(p, f, path, r.error)
  {
    if path == [] { return Err(EmptyRootPath(f.advisoryId)); }
    if path[0] !in roots { return Err(UnknownRootId(path[0])); }
    for i := 1 to |path|
      invariant forall j :: 1 <= j < i ==> Known(p, path[j])
    {
      if path[i] !in packages {
        assert path[i] == path[1..][i - 1];
        return Err(UnknownPathElement(path[i]));
      }
    }
    return Ok(());
  }

  method ValidateFinding(ghost p: ProductReport, roots: set<string>, packages: set<string>, f: FindingEvidence)
    returns (r: Result<(), ReportError>)
    requires roots == KeySet(p.roots, RootId) && packages == KeySet(p.packages, NodeId)
    ensures r.Ok? <==> ValidFinding(p, f)
    ensures r.Err? ==> OfFinding(r.error) && FindingDefect(p, f, r.error)
  {
    if f.packageId !in packages { return Err(UnknownPackage(f.packageId)); }
    for i := 0 to |f.rootPaths|
      invariant forall j :: 0 <= j < i ==> ValidPath(p, f.rootPaths[j])
    {
      r := ValidatePath(p, roots, packages, f, f.rootPaths[i]);
      if r.Err? { return; }
    }
    return Ok(());
  }

  method ValidateEdges(ghost p: ProductReport, packages: set<string>, edges: seq<DependencyEdge>) returns (r: Result<(), ReportError>)
    requires packages == KeySet(p.packages, NodeId)
    ensures r.Ok? <==> forall e :: e in edges ==> ValidEdge(p, e)
    ensures r.Err? ==> r.error.DanglingEdge? && r.error.edge in edges && !ValidEdge(p, r.error.edge)
  {
    for i := 0 to |edges|
      invariant forall j :: 0 <= j < i ==> ValidEdge(p, edges[j])
    {
      if edges[i].source !in packages || edges[i].target !in packages {
        assert edges[i] in edges && !ValidEdge(p, edges[i]);
        return Err(DanglingEdge(edges[i]));
      }
    }
    return Ok(());
  }

  method ValidateReasons(packages: seq<PackageEvidence>) returns (r: Result<(), ReportError>)
    ensures r.Ok? <==> forall x :: x in packages ==> Reasoned(x)
    ensures r.Err? ==> r.error.UnknownWithoutReason? && exists x :: x in packages && x.id == r.error.id && !Reasoned(x)
  {
    for i := 0 to |packages|
      invariant forall j :: 0 <= j < i ==> Reasoned(packages[j])
    {
      if !Reasoned(packages[i]) { return Err(UnknownWithoutReason(packages[i].id)); }
    }
    return Ok(());
  }

  method ValidateFindings(ghost p: ProductReport, roots: set<string>, packages: set<string>, findings: seq<FindingEvidence>)
    returns (r: Result<(), ReportError>)
    requires roots == KeySet(p.roots, RootId) && packages == KeySet(p.packages, NodeId)
    ensures r.Ok? <==> forall f :: f in findings ==> ValidFinding(p, f)
    ensures r.Err? ==> OfFinding(r.error) && exists f :: f in findings && FindingDefect(p, f, r.error)
  {
    for i := 0 to |findings|
      invariant forall j :: 0 <= j < i ==> ValidFinding(p, findings[j])
    {
      r := ValidateFinding(p, roots, packages, findings[i]);
      if r.Err? { return; }
    }
    return Ok(());
  }

  /** `ProductReport::validate` */
  method ValidateProduct(p: ProductReport) returns (r: Result<(), ReportError>)
    ensures r.Ok? <==> ValidProduct(p)
    ensures r.Err? ==> OfProduct(r.error) && ProductDefect(p, r.error)
  {
    var roots, packages := KeySet(p.roots, RootId), KeySet(p.packages, NodeId);
    SizesAgreeIff(p.roots, RootId);
    SizesAgreeIff(p.packages, NodeId);
    if |roots| != |p.roots| { return Err(DuplicateRoots(p.id)); }
    if |packages| != |p.packages| { return Err(DuplicatePackages(p.id)); }
    r := ValidateEdges(p, packages, p.edges);
    if r.Err? { return; }
    r := ValidateReasons(p.packages);
    if r.Err? { return; }
    r := ValidateFindings(p, roots, packages, p.findings);
  }

  /** `EvidenceReport::validate` */
  method ValidateReport(report: EvidenceReport) returns (r: Result<(), ReportError>)
    ensures r.Ok? <==> ValidReport(report)
    ensures r.Err? ==> ReportDefect(report, r.error)
  {
    if report.schemaVersion != REPORT_SCHEMA_VERSION { return Err(UnsupportedSchema(report.schemaVersion)); }
    var ids: set<string> := {};
    var products := report.products;
    for i := 0 to |products|
      invariant forall id :: id in ids <==> exists j :: 0 <= j < i && products[j].id == id
      invariant forall j, k :: 0 <= j < k < i ==> products[j].id != products[k].id
      invariant forall j :: 0 <= j < i ==> ValidProduct(products[j])
    {
      if products[i].id in ids { return Err(DuplicateProduct(products[i].id)); }
      ids := ids + {products[i].id};
      r := ValidateProduct(products[i]);
      if r.Err? { return; }
    }
    return Ok(());
  }
}
