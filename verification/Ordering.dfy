/** Total orders on strings and sorting, standing in for the standard library's `sort`,
    `sort_by` and ordered-map iteration, which the modelled programs call. */
module Ordering {

  /** Lexicographic order on code points, the order of Rust's `str`. */
  predicate StrLeq(a: string, b: string) {
    a == [] || (b != [] && (a[0] < b[0] || (a[0] == b[0] && StrLeq(a[1..], b[1..]))))
  }

  lemma {:induction false} StrLeqReflexive(a: string)
    ensures StrLeq(a, a)
  {
    if a != [] { StrLeqReflexive(a[1..]); }
  }

  lemma {:induction false} StrLeqAntisymmetric(a: string, b: string)
    requires StrLeq(a, b) && StrLeq(b, a)
    ensures a == b
  {
    if a != [] && b != [] {
      StrLeqAntisymmetric(a[1..], b[1..]);
      assert a == [a[0]] + a[1..] && b == [b[0]] + b[1..];
    }
  }

  lemma {:induction false} StrLeqTransitive(a: string, b: string, c: string)
    requires StrLeq(a, b) && StrLeq(b, c)
    ensures StrLeq(a, c)
  {
    if a != [] && a[0] == b[0] == c[0] { StrLeqTransitive(a[1..], b[1..], c[1..]); }
  }

  lemma {:induction false} StrLeqTotal(a: string, b: string)
    ensures StrLeq(a, b) || StrLeq(b, a)
  {
    if a != [] && b != [] && a[0] == b[0] { StrLeqTotal(a[1..], b[1..]); }
  }

  ghost predicate Preorder<T(!new)>(leq: (T, T) -> bool) {
    && (forall x, y :: leq(x, y) || leq(y, x))
    && (forall x, y, z :: leq(x, y) && leq(y, z) ==> leq(x, z))
  }

  ghost predicate Sorted<T(!new)>(s: seq<T>, leq: (T, T) -> bool) {
    forall i, j :: 0 <= i < j < |s| ==> leq(s[i], s[j])
  }

  ghost predicate NoDup<T>(s: seq<T>) {
    forall i, j :: 0 <= i < j < |s| ==> s[i] != s[j]
  }

  function Insert<T>(x: T, s: seq<T>, leq: (T, T) -> bool): (r: seq<T>)
    ensures multiset(r) == multiset(s) + multiset{x}
  {
    if s == [] then [x]
    else
      assert s == [s[0]] + s[1..];
      if leq(x, s[0]) then [x] + s else [s[0]] + Insert(x, s[1..], leq)
  }

  /** A stable sort. */
  function SortBy<T>(s: seq<T>, leq: (T, T) -> bool): (r: seq<T>)
    ensures multiset(r) == multiset(s)
  {
    if s == [] then []
    else
      assert s == [s[0]] + s[1..];
      Insert(s[0], SortBy(s[1..], leq), leq)
  }

  lemma SameElements<T(!new)>(r: seq<T>, s: seq<T>)
    requires multiset(r) == multiset(s)
    ensures |r| == |s|
    ensures forall x :: x in r <==> x in s
  {
    assert |multiset(r)| == |r| && |multiset(s)| == |s|;
    assert forall x :: x in r <==> x in multiset(r);
    assert forall x :: x in s <==> x in multiset(s);
  }

  lemma {:induction false} InsertSorted<T(!new)>(x: T, s: seq<T>, leq: (T, T) -> bool)
    requires Preorder(leq) && Sorted(s, leq)
    ensures Sorted(Insert(x, s, leq), leq)
  {
    if s != [] && !leq(x, s[0]) {
      InsertSorted(x, s[1..], leq);
      var rest := Insert(x, s[1..], leq);
      forall k | 0 <= k < |rest| ensures leq(s[0], rest[k]) {
        assert rest[k] in multiset(rest);
        assert rest[k] == x || rest[k] in s[1..];
      }
    }
  }

  /** `SortBy` yields a sorted permutation whenever `leq` is a total preorder. */
  lemma {:induction false} SortBySorts<T(!new)>(s: seq<T>, leq: (T, T) -> bool)
    requires Preorder(leq)
    ensures Sorted(SortBy(s, leq), leq)
    ensures |SortBy(s, leq)| == |s|
    ensures forall x :: x in SortBy(s, leq) <==> x in s
  {
    SameElements(SortBy(s, leq), s);
    if s != [] {
      SortBySorts(s[1..], leq);
      InsertSorted(s[0], SortBy(s[1..], leq), leq);
    }
  }

  lemma {:induction false} MinimumExists(s: set<string>) returns (m: string)
    requires s != {}
    ensures m in s && forall x :: x in s ==> StrLeq(m, x)
  {
    var y :| y in s;
    if s == {y} {
      m := y;
      StrLeqReflexive(y);
    } else {
      var k := MinimumExists(s - {y});
      StrLeqTotal(k, y);
      StrLeqReflexive(y);
      m := if StrLeq(k, y) then k else y;
      forall x | x in s ensures StrLeq(m, x) {
        if x != y && m == y { StrLeqTransitive(y, k, x); }
      }
    }
  }

  function Minimum(s: set<string>): (m: string)
    requires s != {}
    ensures m in s && forall x :: x in s ==> StrLeq(m, x)
  {
    assert exists m :: m in s && forall x :: x in s ==> StrLeq(m, x) by { var m := MinimumExists(s); }
    assert forall a, b :: StrLeq(a, b) && StrLeq(b, a) ==> a == b by {
      forall a, b | StrLeq(a, b) && StrLeq(b, a) ensures a == b { StrLeqAntisymmetric(a, b); }
    }
    var m :| m in s && forall x :: x in s ==> StrLeq(m, x);
    m
  }

  /** The keys of an ordered map or set, in iteration order. */
  function Ascending(s: set<string>): (r: seq<string>)
    ensures forall x :: x in r <==> x in s
    ensures |r| == |s|
    ensures NoDup(r)
  {
    if s == {} then [] else [Minimum(s)] + Ascending(s - {Minimum(s)})
  }

  lemma {:induction false} AscendingSorted(s: set<string>)
    ensures Sorted(Ascending(s), StrLeq)
  {
    if s != {} {
      var rest := Ascending(s - {Minimum(s)});
      AscendingSorted(s - {Minimum(s)});
      forall i | 0 <= i < |rest| ensures StrLeq(Minimum(s), rest[i]) {
        assert rest[i] in rest;
      }
    }
  }

  /** Rust's `Vec::dedup`: drop each element equal to its predecessor. */
  function Dedup<T(==,!new)>(s: seq<T>): (r: seq<T>)
    ensures forall x :: x in r <==> x in s
    ensures s != [] ==> r != [] && r[0] == s[0]
  {
    if |s| <= 1 then s
    else if s[0] == s[1] then Dedup(s[1..])
    else [s[0]] + Dedup(s[1..])
  }

  /** Each string strictly after the one before. */
  ghost predicate Rising(s: seq<string>) {
    Sorted(s, StrLeq) && NoDup(s)
  }

  lemma StrLeqPreorder()
    ensures Preorder(StrLeq)
  {
    forall x, y ensures StrLeq(x, y) || StrLeq(y, x) { StrLeqTotal(x, y); }
    forall x, y, z | StrLeq(x, y) && StrLeq(y, z) ensures StrLeq(x, z) { StrLeqTransitive(x, y, z); }
  }

  /** Dropping repetitions of a sorted list leaves no element twice. */
  lemma {:induction false} DedupSorted<T(!new)>(s: seq<T>, leq: (T, T) -> bool)
    requires Sorted(s, leq) && forall x, y :: leq(x, y) && leq(y, x) ==> x == y
    ensures Sorted(Dedup(s), leq) && NoDup(Dedup(s))
  {
    if |s| > 1 {
      var rest := Dedup(s[1..]);
      DedupSorted(s[1..], leq);
      if s[0] != s[1] {
        forall j | 0 <= j < |rest| ensures leq(s[0], rest[j]) && rest[j] != s[0] {
          assert rest[j] in s[1..];
          var k :| 0 <= k < |s[1..]| && s[1..][k] == rest[j];
          assert leq(s[0], s[k + 1]) && leq(s[0], s[1]) && (k == 0 || leq(s[1], s[k + 1]));
        }
      }
    }
  }

  lemma SortedSet(s: seq<string>)
    ensures Rising(Dedup(SortBy(s, StrLeq))) && forall x :: x in Dedup(SortBy(s, StrLeq)) <==> x in s
  {
    StrLeqPreorder();
    SortBySorts(s, StrLeq);
    forall x, y | StrLeq(x, y) && StrLeq(y, x) ensures x == y { StrLeqAntisymmetric(x, y); }
    DedupSorted(SortBy(s, StrLeq), StrLeq);
    SameElements(SortBy(s, StrLeq), s);
  }

  /** Equal up to `k`, where the first string ends or has the smaller character. */
  ghost predicate BeforeAt(a: string, b: string, k: int) {
    0 <= k <= |a| && k <= |b| && a[..k] == b[..k] && (k == |a| || (k < |b| && a[k] < b[k]))
  }

  /** One string is at most another if and only if it is a prefix of it, or smaller at their
      first difference. */
  lemma {:induction false} StrLeqIff(a: string, b: string)
    ensures StrLeq(a, b) <==> exists k :: BeforeAt(a, b, k)
  {
    if a == [] {
      assert BeforeAt(a, b, 0);
    } else if b != [] && a[0] == b[0] {
      StrLeqIff(a[1..], b[1..]);
      if k :| BeforeAt(a[1..], b[1..], k) {
        assert a[..k + 1] == [a[0]] + a[1..][..k] && b[..k + 1] == [b[0]] + b[1..][..k];
        assert BeforeAt(a, b, k + 1);
      }
      if k :| BeforeAt(a, b, k) {
        assert k > 0 && a[1..][..k - 1] == a[..k][1..] && b[1..][..k - 1] == b[..k][1..];
        assert BeforeAt(a[1..], b[1..], k - 1);
      }
    } else {
      if b != [] && a[0] < b[0] { assert BeforeAt(a, b, 0); }
      if k :| BeforeAt(a, b, k) { if k > 0 { assert a[..k][0] == b[..k][0]; } }
    }
  }
}
