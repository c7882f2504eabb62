/** `evidence_report`: one product per root of a scan, canonicalised. */
module CveBuild {
  import opened Wrappers
  import opened Ordering
  import opened Keyed
  import opened Text
  import opened NixClosure
  import opened CveScan
  import opened CveEvidence
  import opened CveReport
  import opened CveProducts
  import opened CveCanonical
  import opened CveContents
  import opened CveOrder

  predicate IsNixHashChar(c: char) {
    '0' <= c <= '9' || 'a' <= c <= 'd' || 'f' <= c <= 'n' || 'p' <= c <= 's' || 'v' <= c <= 'z'
  }

  /** `validate_realized_root` */
  predicate Realized(path: string) {
    StartsWith(path, "/nix/store/") &&
    var entry := Split(path[11..], '/')[0];
    var dash := FirstIndex(entry, c => c == '-');
    && dash.Some? && dash.value == 32 && (forall i :: 0 <= i < 32 ==> IsNixHashChar(entry[i]))
    && |entry| > 33 && path == "/nix/store/" + entry
  }

  ghost predicate IsHash(hash: string) {
    forall c :: c in hash ==> c in "0123456789abcdfghijklmnpqrsvwxyz"
  }

  lemma HashIff(hash: string)
    ensures IsHash(hash) <==> forall i :: 0 <= i < |hash| ==> IsNixHashChar(hash[i])
  {
    assert forall c: char :: IsNixHashChar(c) <==> c in "0123456789abcdfghijklmnpqrsvwxyz";
  }

  /** A hash of 32 characters in the alphabet of store paths, a dash and a name. */
  ghost predicate IsStorePath(path: string, hash: string, name: string) {
    && |hash| == 32 && IsHash(hash)
    && name != "" && '/' !in name && path == "/nix/store/" + (hash + ("-" + name))
  }

  lemma StorePathIsRealized(path: string, hash: string, name: string)
    requires IsStorePath(path, hash, name)
    ensures Realized(path)
  {
    HashIff(hash);
    var entry := hash + ("-" + name);
    assert path[11..] == entry && path[..11] == "/nix/store/";
    assert '/' !in entry by {
      forall i | 0 <= i < |entry| ensures entry[i] != '/' {
        if i > 32 { assert entry[i] == name[i - 33]; }
      }
    }
    SplitWhole(entry, '/');
    assert entry[32] == '-';
    assert forall i :: 0 <= i < 32 ==> entry[i] == hash[i] && entry[i] != '-';
  }

  lemma EntryParts(entry: string)
    requires '/' !in entry && |entry| > 33 && entry[32] == '-'
    ensures entry == entry[..32] + ("-" + entry[33..]) && '/' !in entry[33..]
  {
  }

  /** The roots a report is made for are the top-level store paths. */
  lemma RealizedIff(path: string)
    ensures Realized(path) <==> exists hash, name :: IsStorePath(path, hash, name)
  {
    if Realized(path) {
      var entry := Split(path[11..], '/')[0];
      JoinInvertsSplit(path[11..], '/');
      assert entry in Split(path[11..], '/');
      EntryParts(entry);
      HashIff(entry[..32]);
      assert IsStorePath(path, entry[..32], entry[33..]);
    }
    if hash, name :| IsStorePath(path, hash, name) { StorePathIsRealized(path, hash, name); }
  }

  method CollectPackages(comps: seq<Component>) returns (r: seq<PackageEvidence>)
    requires forall c :: c in comps ==> Usable(c.identity)
    ensures r == PackagesOf(comps)
  {
    r := [];
    for i := 0 to |comps|
      invariant r == PackagesOf(comps[..i])
    {
      assert comps[i] in comps;
      var packages := PackageEvidenceOf(comps[i].storePath, comps[i].identity);
      assert comps[..i + 1][..i] == comps[..i];
      r := r + packages;
    }
    assert comps[..|comps|] == comps;
  }

  lemma AllUsable(inp: Inputs, comps: seq<Component>)
    requires ComponentsOk(inp, comps)
    ensures forall c :: c in comps ==> Usable(c.identity)
  {
    forall c | c in comps ensures Usable(c.identity) { ValidIsUsable(inp, c); }
  }

  method BuildProduct(scan: ScanReport, root: string) returns (p: ProductReport)
    requires root in scan.roots && Locatable(scan.components, scan.findings)
    requires forall c :: c in scan.components ==> Usable(c.identity)
    ensures p == Product(scan, root)
  {
    var reached := ReachedFrom(scan.components, root);
    forall c | c in reached ensures Usable(c.identity) { InReachedFrom(scan.components, root, c); }
    var packages := CollectPackages(reached);
    p := ProductReport(root, [RootEvidence(root, scan.roots[root].attr, scan.roots[root].path)], packages,
                       EdgesOf(reached, StorePaths(reached)), FindingsOf(scan.components, scan.findings, root));
  }

  /** The error names a root whose path is no realized store path. */
  ghost predicate Blames(roots: SecurityRoots, e: ReportError) {
    e.NotRealized? && e.root in roots && !Realized(roots[e.root].path)
  }

  ghost predicate AllRealized(roots: SecurityRoots, names: seq<string>) {
    forall i :: 0 <= i < |names| ==> names[i] in roots && Realized(roots[names[i]].path)
  }

  /** The first `n` products are built, and their roots are realized. */
  ghost predicate Built(scan: ScanReport, names: seq<string>, n: int, products: seq<ProductReport>)
    requires Locatable(scan.components, scan.findings)
  {
    && |products| == n <= |names|
    && forall j :: 0 <= j < n ==>
         names[j] in scan.roots && Realized(scan.roots[names[j]].path) && products[j] == Product(scan, names[j])
  }

  lemma BuiltOneMore(scan: ScanReport, names: seq<string>, n: int, products: seq<ProductReport>, p: ProductReport)
    requires Locatable(scan.components, scan.findings) && Built(scan, names, n, products) && n < |names|
    requires names[n] in scan.roots && Realized(scan.roots[names[n]].path) && p == Product(scan, names[n])
    ensures Built(scan, names, n + 1, products + [p])
  {
  }

  lemma BuiltAll(scan: ScanReport, names: seq<string>, products: seq<ProductReport>)
    requires Locatable(scan.components, scan.findings) && Built(scan, names, |names|, products)
    ensures ProductsFor(scan, names, products) && AllRealized(scan.roots, names)
  {
  }

  /** One turn of the loop: check the root, then build its product. */
  method BuildNext(scan: ScanReport, names: seq<string>, n: nat, products: seq<ProductReport>)
    returns (r: Result<seq<ProductReport>, ReportError>)
    requires Locatable(scan.components, scan.findings) && n < |names| && names[n] in scan.roots
    requires forall c :: c in scan.components ==> Usable(c.identity)
    requires Built(scan, names, n, products)
    ensures r.Ok? ==> Built(scan, names, n + 1, r.value)
    ensures r.Err? ==> Blames(scan.roots, r.error)
  {
    if !Realized(scan.roots[names[n]].path) { return Err(NotRealized(names[n])); }
    var p := BuildProduct(scan, names[n]);
    BuiltOneMore(scan, names, n, products, p);
    r := Ok(products + [p]);
  }

  method BuildProducts(scan: ScanReport, names: seq<string>) returns (r: Result<seq<ProductReport>, ReportError>)
    requires Locatable(scan.components, scan.findings) && forall i :: 0 <= i < |names| ==> names[i] in scan.roots
    requires forall c :: c in scan.components ==> Usable(c.identity)
    ensures r.Ok? ==> AllRealized(scan.roots, names)
    ensures r.Ok? ==> ProductsFor(scan, names, r.value)
    ensures r.Err? ==> Blames(scan.roots, r.error)
  {
    var products := [];
    for n := 0 to |names|
      invariant Built(scan, names, n, products)
    {
      var next := BuildNext(scan, names, n, products);
      if next.Err? { return next; }
      products := next.value;
    }
    BuiltAll(scan, names, products);
    r := Ok(products);
  }

  lemma RealizedNames(roots: SecurityRoots, names: seq<string>)
    requires forall k :: k in names <==> k in roots
    ensures AllRealized(roots, names) <==> forall k :: k in roots ==> Realized(roots[k].path)
  {
    forall i | 0 <= i < |names| ensures names[i] in roots { assert names[i] in names; }
    if AllRealized(roots, names) {
      forall k | k in roots ensures Realized(roots[k].path) {
        var i :| 0 <= i < |names| && names[i] == k;
      }
    }
  }

  lemma ProductValidIff(inp: Inputs, scan: ScanReport, root: string)
    requires IsScan(inp, scan) && root in scan.roots && Locatable(scan.components, scan.findings)
    ensures ValidProduct(Product(scan, root)) <==> CollisionFree(ReachedFrom(scan.components, root))
  {
    ProductsLinked(inp, scan, root);
    DistinctIffCollisionFree(ReachedFrom(scan.components, root));
  }

  lemma ProductsValidIff(inp: Inputs, scan: ScanReport, names: seq<string>, products: seq<ProductReport>)
    requires IsScan(inp, scan) && Locatable(scan.components, scan.findings) && ProductsFor(scan, names, products)
    requires NoDup(names) && forall k :: k in names <==> k in scan.roots
    ensures DistinctBy(products, ProductId)
    ensures (forall p :: p in products ==> ValidProduct(p)) <==>
      forall root :: root in scan.roots ==> CollisionFree(ReachedFrom(scan.components, root))
  {
    forall i | 0 <= i < |names| ensures ValidProduct(products[i]) <==> CollisionFree(ReachedFrom(scan.components, names[i])) {
      ProductValidIff(inp, scan, names[i]);
    }
    if forall p :: p in products ==> ValidProduct(p) {
      forall root | root in scan.roots ensures CollisionFree(ReachedFrom(scan.components, root)) {
        var i :| 0 <= i < |names| && names[i] == root;
        assert products[i] in products;
      }
    }
  }

  lemma ReportValidIff(inp: Inputs, scan: ScanReport, names: seq<string>, report: EvidenceReport)
    requires IsScan(inp, scan) && Locatable(scan.components, scan.findings) && ProductsFor(scan, names, report.products)
    requires NoDup(names) && forall k :: k in names <==> k in scan.roots
    requires report.schemaVersion == REPORT_SCHEMA_VERSION
    ensures ValidReport(Canonicalized(report)) <==>
      forall root :: root in scan.roots ==> CollisionFree(ReachedFrom(scan.components, root))
  {
    ProductsValidIff(inp, scan, names, report.products);
    CanonicalizedKeepsValidity(report);
  }

  lemma UnambiguousIff(inp: Inputs, scan: ScanReport)
    requires IsScan(inp, scan)
    ensures (forall root :: root in scan.roots ==> CollisionFree(ReachedFrom(scan.components, root))) <==> Unambiguous(inp)
  {
    forall root ensures CollisionFree(ReachedFrom(scan.components, root)) <==>
      forall p, q :: ReachesBoth(inp, root, p, q) ==> !Ambiguous(inp, p, q)
    {
      CollisionFreeIff(inp, scan.components, root);
    }
  }

  lemma ReportIsRight(inp: Inputs, scan: ScanReport, names: seq<string>, report: EvidenceReport)
    requires IsScan(inp, scan) && Locatable(scan.components, scan.findings) && ProductsFor(scan, names, report.products)
    requires NoDup(names) && forall k :: k in names <==> k in scan.roots
    requires report.schemaVersion == REPORT_SCHEMA_VERSION
    ensures ValidReport(Canonicalized(report)) <==> Unambiguous(inp)
    ensures Shows(inp, Canonicalized(report)) && ReportInOrder(Canonicalized(report))
  {
    CanonicalizedInOrder(report);
    ReportValidIff(inp, scan, names, report);
    UnambiguousIff(inp, scan);
    ReportShows(inp, scan, names, report);
  }

  lemma NamesInRoots(roots: SecurityRoots, names: seq<string>)
    requires forall k :: k in names <==> k in roots
    ensures forall i :: 0 <= i < |names| ==> names[i] in roots
  {
    forall i | 0 <= i < |names| ensures names[i] in roots { assert names[i] in names; }
  }

  /** The loop over the roots of a scan. */
  method BuildAll(ghost inp: Inputs, scan: ScanReport, names: seq<string>) returns (r: Result<seq<ProductReport>, ReportError>)
    requires IsScan(inp, scan) && forall k :: k in names <==> k in scan.roots
    ensures r.Ok? <==> forall k :: k in scan.roots ==> Realized(scan.roots[k].path)
    ensures r.Err? ==> Blames(scan.roots, r.error)
    ensures Locatable(scan.components, scan.findings) && (r.Ok? ==> ProductsFor(scan, names, r.value))
  {
    AllLocatable(inp, scan);
    AllUsable(inp, scan.components);
    NamesInRoots(scan.roots, names);
    RealizedNames(scan.roots, names);
    r := BuildProducts(scan, names);
  }

  /** `evidence_report`: on the result of a scan it never panics, fails only on a root that is
      not a realized store path, and builds a report that validates exactly when no root
      reaches two paths one of which spells out an identity of the other. The report shows
      exactly what the inputs imply, root by root and in order. */
  method BuildReport(ghost inp: Inputs, scan: ScanReport) returns (r: Result<EvidenceReport, ReportError>)
    requires IsScan(inp, scan)
    ensures r.Ok? <==> forall k :: k in scan.roots ==> Realized(scan.roots[k].path)
    ensures r.Err? ==> Blames(scan.roots, r.error)
    ensures r.Ok? ==> r.value.status == scan.status && Shows(inp, r.value) && ReportInOrder(r.value)
    ensures r.Ok? ==> (ValidReport(r.value) <==> Unambiguous(inp))
  {
    var names := Ascending(scan.roots.Keys);
    var products := BuildAll(inp, scan, names);
    if products.Err? { return Err(products.error); }
    var report := EvidenceReport(REPORT_SCHEMA_VERSION, scan.status, products.value);
    ReportIsRight(inp, scan, names, report);
    r := Ok(Canonicalized(report));
  }
}
