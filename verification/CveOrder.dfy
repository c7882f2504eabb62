/** The order in which a canonical report lists things. */
module CveOrder {
  import opened Ordering
  import opened CveMerge
  import opened CveEvidence
  import opened CveCanonical

  /** By the first string, then by the second. */
  ghost predicate PairLeq(a: string, b: string, c: string, d: string) {
    if a == c then StrLeq(b, d) else StrLeq(a, c)
  }

  lemma WordsOfTwo(a: string, b: string, c: string, d: string)
    ensures WordsLeq([a, b], [c, d]) <==> PairLeq(a, b, c, d)
  {
    assert [a, b] == [a] + ([b] + []) && [c, d] == [c] + ([d] + []);
    WordsLeqCons(a, [b] + [], c, [d] + []);
    WordsLeqCons(b, [], d, []);
    StrLeqReflexive(b);
  }

  /** Packages by id, edges by source and target without repetition, findings by advisory and
      package. */
  ghost predicate InOrder(p: ProductReport) {
    && (forall i, j :: 0 <= i < j < |p.packages| ==> StrLeq(p.packages[i].id, p.packages[j].id))
    && (forall i, j :: 0 <= i < j < |p.edges| ==> EdgeBefore(p.edges[i], p.edges[j]))
    && (forall i, j :: 0 <= i < j < |p.findings| ==> FindingNotAfter(p.findings[i], p.findings[j]))
  }

  ghost predicate EdgeBefore(a: DependencyEdge, b: DependencyEdge) {
    a != b && PairLeq(a.source, a.target, b.source, b.target)
  }

  ghost predicate FindingNotAfter(a: FindingEvidence, b: FindingEvidence) {
    PairLeq(a.advisoryId, a.packageId, b.advisoryId, b.packageId)
  }

  lemma EdgeLeqPreorder()
    ensures Preorder(EdgeLeq) && forall x, y :: EdgeLeq(x, y) && EdgeLeq(y, x) ==> x == y
  {
    forall x, y ensures EdgeLeq(x, y) || EdgeLeq(y, x) { WordsLeqTotal([x.source, x.target], [y.source, y.target]); }
    forall x, y, z | EdgeLeq(x, y) && EdgeLeq(y, z) ensures EdgeLeq(x, z) {
      WordsLeqTransitive([x.source, x.target], [y.source, y.target], [z.source, z.target]);
    }
    forall x, y | EdgeLeq(x, y) && EdgeLeq(y, x) ensures x == y {
      WordsLeqAntisymmetric([x.source, x.target], [y.source, y.target]);
      assert [x.source, x.target][0] == [y.source, y.target][0] && [x.source, x.target][1] == [y.source, y.target][1];
    }
  }

  lemma EvidenceLeqPreorder()
    ensures Preorder(EvidenceLeq)
  {
    forall x, y ensures EvidenceLeq(x, y) || EvidenceLeq(y, x) {
      WordsLeqTotal([x.advisoryId, x.packageId], [y.advisoryId, y.packageId]);
    }
    forall x, y, z | EvidenceLeq(x, y) && EvidenceLeq(y, z) ensures EvidenceLeq(x, z) {
      WordsLeqTransitive([x.advisoryId, x.packageId], [y.advisoryId, y.packageId], [z.advisoryId, z.packageId]);
    }
  }

  lemma NodeLeqPreorder()
    ensures Preorder(NodeLeq)
  {
    forall x, y ensures NodeLeq(x, y) || NodeLeq(y, x) { StrLeqTotal(x.id, y.id); }
    forall x, y, z | NodeLeq(x, y) && NodeLeq(y, z) ensures NodeLeq(x, z) { StrLeqTransitive(x.id, y.id, z.id); }
  }

  lemma ProductLeqPreorder()
    ensures Preorder(ProductLeq)
  {
    forall x, y ensures ProductLeq(x, y) || ProductLeq(y, x) { StrLeqTotal(x.id, y.id); }
    forall x, y, z | ProductLeq(x, y) && ProductLeq(y, z) ensures ProductLeq(x, z) { StrLeqTransitive(x.id, y.id, z.id); }
  }

  lemma PackagesInOrder(p: ProductReport)
    ensures forall i, j :: 0 <= i < j < |Canonical(p).packages| ==> StrLeq(Canonical(p).packages[i].id, Canonical(p).packages[j].id)
  {
    NodeLeqPreorder();
    SortBySorts(p.packages, NodeLeq);
    var sorted := SortBy(p.packages, NodeLeq);
    forall i, j | 0 <= i < j < |Canonical(p).packages|
      ensures StrLeq(Canonical(p).packages[i].id, Canonical(p).packages[j].id)
    {
      assert NodeLeq(sorted[i], sorted[j]);
    }
  }

  lemma EdgesInOrder(p: ProductReport)
    ensures forall i, j :: 0 <= i < j < |Canonical(p).edges| ==> EdgeBefore(Canonical(p).edges[i], Canonical(p).edges[j])
  {
    EdgeLeqPreorder();
    SortBySorts(p.edges, EdgeLeq);
    DedupSorted(SortBy(p.edges, EdgeLeq), EdgeLeq);
    var edges := Canonical(p).edges;
    forall i, j | 0 <= i < j < |edges| ensures EdgeBefore(edges[i], edges[j]) {
      assert EdgeLeq(edges[i], edges[j]) && edges[i] != edges[j];
      WordsOfTwo(edges[i].source, edges[i].target, edges[j].source, edges[j].target);
    }
  }

  lemma FindingsInOrder(p: ProductReport)
    ensures forall i, j :: 0 <= i < j < |Canonical(p).findings| ==>
      FindingNotAfter(Canonical(p).findings[i], Canonical(p).findings[j])
  {
    EvidenceLeqPreorder();
    SortBySorts(p.findings, EvidenceLeq);
    var sorted, findings := SortBy(p.findings, EvidenceLeq), Canonical(p).findings;
    forall i, j | 0 <= i < j < |findings| ensures FindingNotAfter(findings[i], findings[j]) {
      assert EvidenceLeq(sorted[i], sorted[j]);
      WordsOfTwo(sorted[i].advisoryId, sorted[i].packageId, sorted[j].advisoryId, sorted[j].packageId);
    }
  }

  lemma CanonicalInOrder(p: ProductReport)
    ensures InOrder(Canonical(p))
  {
    PackagesInOrder(p);
    EdgesInOrder(p);
    FindingsInOrder(p);
  }

  ghost predicate ReportInOrder(r: EvidenceReport) {
    && (forall i, j :: 0 <= i < j < |r.products| ==> StrLeq(r.products[i].id, r.products[j].id))
    && (forall i :: 0 <= i < |r.products| ==> InOrder(r.products[i]))
  }

  /** A canonical report lists everything in order, whatever order it was assembled in. */
  lemma CanonicalizedInOrder(r: EvidenceReport)
    ensures ReportInOrder(Canonicalized(r))
  {
    ProductLeqPreorder();
    SortBySorts(r.products, ProductLeq);
    var sorted, products := SortBy(r.products, ProductLeq), Canonicalized(r).products;
    forall i, j | 0 <= i < j < |products| ensures StrLeq(products[i].id, products[j].id) {
      assert ProductLeq(sorted[i], sorted[j]);
    }
    forall i | 0 <= i < |products| ensures InOrder(products[i]) { CanonicalInOrder(sorted[i]); }
  }
}
