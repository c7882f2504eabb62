/** Lists of records identified by a string key. */
module Keyed {
  import opened Ordering

  ghost predicate DistinctBy<T(!new)>(s: seq<T>, key: T -> string) {
    forall i, j :: 0 <= i < j < |s| ==> key(s[i]) != key(s[j])
  }

  ghost predicate HasId<T(!new)>(s: seq<T>, key: T -> string, id: string) {
    exists x :: x in s && key(x) == id
  }

  function KeySet<T(!new)>(s: seq<T>, key: T -> string): (r: set<string>)
    ensures forall id :: id in r <==> HasId(s, key, id)
  {
    if s == [] then {}
    else
      assert s == [s[0]] + s[1..];
      {key(s[0])} + KeySet(s[1..], key)
  }

  lemma AddKey(keys: set<string>, k: string)
    ensures |{k} + keys| == |keys| + (if k in keys then 0 else 1)
  {
    if k in keys { assert {k} + keys == keys; }
  }

  lemma KeySetCons<T(!new)>(s: seq<T>, key: T -> string)
    requires s != []
    ensures |KeySet(s, key)| == |KeySet(s[1..], key)| + (if HasId(s[1..], key, key(s[0])) then 0 else 1)
    ensures DistinctBy(s, key) <==> DistinctBy(s[1..], key) && !HasId(s[1..], key, key(s[0]))
  {
    AddKey(KeySet(s[1..], key), key(s[0]));
    DistinctCons(s[0], s[1..], key);
    assert s == [s[0]] + s[1..];
  }

  /** Comparing sizes detects duplicates exactly. */
  lemma {:induction false} SizesAgreeIff<T(!new)>(s: seq<T>, key: T -> string)
    ensures |KeySet(s, key)| <= |s|
    ensures |KeySet(s, key)| == |s| <==> DistinctBy(s, key)
  {
    if s != [] {
      SizesAgreeIff(s[1..], key);
      KeySetCons(s, key);
    }
  }

  lemma DistinctCons<T(!new)>(x: T, s: seq<T>, key: T -> string)
    ensures DistinctBy([x] + s, key) <==> DistinctBy(s, key) && !HasId(s, key, key(x))
  {
    var all := [x] + s;
    assert forall i :: 0 <= i < |s| ==> all[i + 1] == s[i];
    if DistinctBy(all, key) {
      forall i, j | 0 <= i < j < |s| ensures key(s[i]) != key(s[j]) { assert key(all[i + 1]) != key(all[j + 1]); }
      forall i | 0 <= i < |s| ensures key(s[i]) != key(x) { assert key(all[0]) != key(all[i + 1]); }
    }
    if DistinctBy(s, key) && !HasId(s, key, key(x)) {
      forall i, j | 0 <= i < j < |all| ensures key(all[i]) != key(all[j]) {
        assert s[j - 1] in s;
        if i > 0 { assert key(s[i - 1]) != key(s[j - 1]); }
      }
    }
  }

  lemma HasIdCons<T(!new)>(x: T, s: seq<T>, key: T -> string, id: string)
    ensures HasId([x] + s, key, id) <==> key(x) == id || HasId(s, key, id)
  {
    assert forall y :: y in [x] + s <==> y == x || y in s;
  }

  lemma SameIds<T(!new)>(r: seq<T>, s: seq<T>, key: T -> string, id: string)
    requires multiset(r) == multiset(s)
    ensures HasId(r, key, id) <==> HasId(s, key, id)
  {
    SameElements(r, s);
  }

  /** Swapping the first two elements keeps the ids distinct or not. */
  lemma DistinctSwap<T(!new)>(x: T, y: T, s: seq<T>, key: T -> string)
    ensures DistinctBy([x] + ([y] + s), key) <==> DistinctBy([y] + ([x] + s), key)
  {
    DistinctCons(x, [y] + s, key);
    DistinctCons(y, [x] + s, key);
    DistinctCons(x, s, key);
    DistinctCons(y, s, key);
    HasIdCons(y, s, key, key(x));
    HasIdCons(x, s, key, key(y));
  }

  lemma DistinctTail<T(!new)>(x: T, r: seq<T>, s: seq<T>, key: T -> string)
    requires multiset(r) == multiset(s) && (DistinctBy(r, key) <==> DistinctBy(s, key))
    ensures DistinctBy([x] + r, key) <==> DistinctBy([x] + s, key)
  {
    SameIds(r, s, key, key(x));
    DistinctCons(x, r, key);
    DistinctCons(x, s, key);
  }

  lemma DistinctPastHead<T(!new)>(x: T, y: T, r: seq<T>, s: seq<T>, key: T -> string)
    requires multiset(r) == multiset([x] + s) && (DistinctBy(r, key) <==> DistinctBy([x] + s, key))
    ensures DistinctBy([y] + r, key) <==> DistinctBy([x] + ([y] + s), key)
  {
    DistinctTail(y, r, [x] + s, key);
    DistinctSwap(y, x, s, key);
  }

  lemma {:induction false} InsertDistinct<T(!new)>(x: T, s: seq<T>, leq: (T, T) -> bool, key: T -> string)
    ensures DistinctBy(Insert(x, s, leq), key) <==> DistinctBy([x] + s, key)
  {
    if s != [] && !leq(x, s[0]) {
      var y, rest := s[0], s[1..];
      assert s == [y] + rest;
      assert Insert(x, s, leq) == [y] + Insert(x, rest, leq);
      InsertDistinct(x, rest, leq, key);
      DistinctPastHead(x, y, Insert(x, rest, leq), rest, key);
    }
  }

  lemma {:induction false} SortDistinct<T(!new)>(s: seq<T>, leq: (T, T) -> bool, key: T -> string)
    ensures DistinctBy(SortBy(s, leq), key) <==> DistinctBy(s, key)
  {
    if s != [] {
      SortDistinct(s[1..], leq, key);
      InsertDistinct(s[0], SortBy(s[1..], leq), leq, key);
      DistinctTail(s[0], SortBy(s[1..], leq), s[1..], key);
      assert s == [s[0]] + s[1..];
    }
  }

  lemma MapKeepsIds<T(!new)>(r: seq<T>, s: seq<T>, key: T -> string)
    requires |r| == |s| && forall i :: 0 <= i < |s| ==> key(r[i]) == key(s[i])
    ensures DistinctBy(r, key) <==> DistinctBy(s, key)
    ensures forall id :: HasId(r, key, id) <==> HasId(s, key, id)
  {
    forall id ensures HasId(r, key, id) <==> HasId(s, key, id) {
      if HasId(r, key, id) {
        var i :| 0 <= i < |r| && key(r[i]) == id;
        assert s[i] in s;
      }
      if HasId(s, key, id) {
        var i :| 0 <= i < |s| && key(s[i]) == id;
        assert r[i] in r;
      }
    }
  }

  ghost predicate SharesId<T(!new)>(a: seq<T>, b: seq<T>, key: T -> string) {
    exists id :: HasId(a, key, id) && HasId(b, key, id)
  }

  lemma DistinctParts<T(!new)>(a: seq<T>, b: seq<T>, key: T -> string)
    requires DistinctBy(a + b, key)
    ensures DistinctBy(a, key) && DistinctBy(b, key) && !SharesId(a, b, key)
  {
    var s := a + b;
    assert forall i :: 0 <= i < |b| ==> s[|a| + i] == b[i];
    forall i, j | 0 <= i < j < |a| ensures key(a[i]) != key(a[j]) { assert key(s[i]) != key(s[j]); }
    forall i, j | 0 <= i < j < |b| ensures key(b[i]) != key(b[j]) { assert key(s[|a| + i]) != key(s[|a| + j]); }
    forall i, j | 0 <= i < |a| && 0 <= j < |b| ensures key(a[i]) != key(b[j]) { assert key(s[i]) != key(s[|a| + j]); }
  }

  lemma DistinctJoin<T(!new)>(a: seq<T>, b: seq<T>, key: T -> string)
    requires DistinctBy(a, key) && DistinctBy(b, key) && !SharesId(a, b, key)
    ensures DistinctBy(a + b, key)
  {
    var s := a + b;
    forall i, j | 0 <= i < j < |s| ensures key(s[i]) != key(s[j]) {
      if i < |a| <= j {
        assert a[i] in a && b[j - |a|] in b;
        assert HasId(a, key, key(a[i])) && HasId(b, key, key(b[j - |a|]));
      }
    }
  }

  /** A property kept item by item through sorting and mapping holds throughout or not alike. */
  lemma AllKept<T(!new)>(s: seq<T>, sorted: seq<T>, r: seq<T>, before: T -> bool, after: T -> bool)
    requires multiset(sorted) == multiset(s) && |r| == |sorted|
    requires forall i :: 0 <= i < |r| ==> (after(r[i]) <==> before(sorted[i]))
    ensures (forall x :: x in r ==> after(x)) <==> (forall x :: x in s ==> before(x))
  {
    SameElements(sorted, s);
    if forall x :: x in r ==> after(x) {
      forall x | x in s ensures before(x) {
        var i :| 0 <= i < |sorted| && sorted[i] == x;
        assert r[i] in r;
      }
    }
    if forall x :: x in s ==> before(x) {
      forall x | x in r ensures after(x) {
        var i :| 0 <= i < |r| && r[i] == x;
        assert sorted[i] in sorted;
      }
    }
  }
}
