/** What the comparison of versions decides: the first segment in which they differ, a missing
    segment counting as zero. */
module VersionOrder {
  import opened Wrappers
  import opened Ordering
  import opened Versions

  /** The versions do not differ in segment `i`. */
  ghost predicate SameAt(a: seq<Token>, b: seq<Token>, i: nat) {
    if i < |a| && i < |b| then a[i] == b[i]
    else if i < |a| then a[i] == Number(0)
    else if i < |b| then b[i] == Number(0)
    else true
  }

  ghost predicate SameBefore(a: seq<Token>, b: seq<Token>, k: nat) {
    forall i: nat :: i < k ==> SameAt(a, b, i)
  }

  /** Numbers by value, text by its characters. */
  ghost predicate Lower(s: Token, t: Token) {
    || (s.Number? && t.Number? && s.n < t.n)
    || (s.Text? && t.Text? && s.text != t.text && StrLeq(s.text, t.text))
  }

  /** The first difference is in segment `k`, and puts `a` below `b`. */
  ghost predicate LessAt(a: seq<Token>, b: seq<Token>, k: nat) {
    SameBefore(a, b, k) && k < |b| && if k < |a| then Lower(a[k], b[k]) else b[k] != Number(0)
  }

  lemma SameTail(a: seq<Token>, b: seq<Token>, i: nat)
    ensures SameAt(a, b, i + 1) <==> SameAt(Tail(a), Tail(b), i)
  {
  }

  lemma SameBeforeTail(a: seq<Token>, b: seq<Token>, k: nat)
    ensures SameBefore(a, b, k + 1) <==> SameAt(a, b, 0) && SameBefore(Tail(a), Tail(b), k)
  {
    forall i: nat ensures SameAt(a, b, i + 1) <==> SameAt(Tail(a), Tail(b), i) { SameTail(a, b, i); }
    if SameBefore(a, b, k + 1) {
      forall i: nat | i < k ensures SameAt(Tail(a), Tail(b), i) { assert SameAt(a, b, i + 1); }
    }
    if SameAt(a, b, 0) && SameBefore(Tail(a), Tail(b), k) {
      forall i: nat | i < k + 1 ensures SameAt(a, b, i) { if i > 0 { assert SameAt(Tail(a), Tail(b), i - 1); } }
    }
  }

  lemma LessTail(a: seq<Token>, b: seq<Token>, k: nat)
    ensures LessAt(a, b, k + 1) <==> SameAt(a, b, 0) && LessAt(Tail(a), Tail(b), k)
  {
    SameBeforeTail(a, b, k);
  }

  lemma TokenOrderIff(s: Token, t: Token)
    ensures TokenOrder(s, t) == Some(Less) <==> Lower(s, t)
    ensures TokenOrder(s, t) == Some(Equal) <==> s == t
  {
  }

  lemma CompareTail(a: seq<Token>, b: seq<Token>)
    requires (a != [] || b != []) && SameAt(a, b, 0)
    ensures Compare(a, b) == Compare(Tail(a), Tail(b))
  {
    if a != [] && b != [] { TokenOrderIff(a[0], b[0]); }
  }

  /** One version is below another if and only if the first segment in which they differ says
      so. */
  lemma {:induction false} LessIff(a: seq<Token>, b: seq<Token>)
    ensures Compare(a, b) == Some(Less) <==> exists k: nat :: LessAt(a, b, k)
    decreases |a| + |b|
  {
    if a != [] || b != [] {
      if SameAt(a, b, 0) {
        CompareTail(a, b);
        LessIff(Tail(a), Tail(b));
        if k: nat :| LessAt(Tail(a), Tail(b), k) {
          LessTail(a, b, k);
          assert LessAt(a, b, k + 1);
        }
        if k: nat :| LessAt(a, b, k) {
          if a != [] && b != [] { TokenOrderIff(a[0], b[0]); }
          assert k > 0;
          LessTail(a, b, k - 1);
        }
      } else {
        if a != [] && b != [] { TokenOrderIff(a[0], b[0]); }
        assert SameBefore(a, b, 0);
        if Compare(a, b) == Some(Less) { assert LessAt(a, b, 0); }
        forall k: nat | k > 0 ensures !SameBefore(a, b, k) { assert !SameAt(a, b, 0); }
      }
    }
  }

  /** They are equal if and only if they differ in no segment. */
  lemma {:induction false} EqualIff(a: seq<Token>, b: seq<Token>)
    ensures Compare(a, b) == Some(Equal) <==> forall i: nat :: SameAt(a, b, i)
    decreases |a| + |b|
  {
    if a != [] || b != [] {
      forall i: nat ensures SameAt(a, b, i + 1) <==> SameAt(Tail(a), Tail(b), i) { SameTail(a, b, i); }
      if SameAt(a, b, 0) {
        CompareTail(a, b);
        EqualIff(Tail(a), Tail(b));
        if forall i: nat :: SameAt(Tail(a), Tail(b), i) {
          forall i: nat ensures SameAt(a, b, i) { if i > 0 { assert SameAt(Tail(a), Tail(b), i - 1); } }
        }
        if forall i: nat :: SameAt(a, b, i) {
          forall i: nat ensures SameAt(Tail(a), Tail(b), i) { assert SameAt(a, b, i + 1); }
        }
      } else if a != [] && b != [] {
        TokenOrderIff(a[0], b[0]);
      }
    }
  }
}
