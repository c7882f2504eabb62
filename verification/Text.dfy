/** String helpers shared by the scanners. */
module Text {
  import opened Wrappers

  /** Unicode white space, as `char::is_whitespace` and `str::trim` use it. */
  predicate IsWhitespace(c: char) {
    || '\t' <= c <= '\r' || c == ' ' || c == '\U{0085}' || c == '\U{00A0}' || c == '\U{1680}'
    || '\U{2000}' <= c <= '\U{200A}' || c == '\U{2028}' || c == '\U{2029}' || c == '\U{202F}'
    || c == '\U{205F}' || c == '\U{3000}'
  }

  /** `s.trim().is_empty()` */
  predicate Blank(s: string) {
    forall i :: 0 <= i < |s| ==> IsWhitespace(s[i])
  }

  predicate StartsWith(s: string, prefix: string) {
    |prefix| <= |s| && s[..|prefix|] == prefix
  }

  function Reverse<T>(s: seq<T>): seq<T> {
    seq(|s|, i requires 0 <= i < |s| => s[|s| - 1 - i])
  }

  /** Position of the first character satisfying `f`. */
  function FirstIndex(s: string, f: char -> bool): (r: Option<nat>)
    ensures r.Some? ==> r.value < |s| && f(s[r.value]) && forall i :: 0 <= i < r.value ==> !f(s[i])
    ensures r.None? ==> forall i :: 0 <= i < |s| ==> !f(s[i])
  {
    if s == [] then None
    else if f(s[0]) then Some(0)
    else
      var rest := FirstIndex(s[1..], f);
      if rest.Some? then Some(rest.value + 1) else None
  }

  /** Position of the last character satisfying `f`. */
  function LastIndex(s: string, f: char -> bool): (r: Option<nat>)
    ensures r.Some? ==> r.value < |s| && f(s[r.value]) && forall i :: r.value < i < |s| ==> !f(s[i])
    ensures r.None? ==> forall i :: 0 <= i < |s| ==> !f(s[i])
  {
    if s == [] then None
    else if f(s[|s| - 1]) then Some(|s| - 1)
    else LastIndex(s[..|s| - 1], f)
  }

  /** `s.split(sep)` */
  function Split(s: string, sep: char): (r: seq<string>)
    ensures r != []
  {
    if s == [] then [""]
    else
      var rest := Split(s[1..], sep);
      if s[0] == sep then [""] + rest else [[s[0]] + rest[0]] + rest[1..]
  }

  lemma {:induction false} SplitWhole(s: string, sep: char)
    requires sep !in s
    ensures Split(s, sep) == [s]
  {
    if s != [] {
      SplitWhole(s[1..], sep);
      assert [s[0]] + s[1..] == s;
    }
  }

  /** The parts with the separator between them. */
  function JoinWith(parts: seq<string>, sep: char): string
    requires parts != []
  {
    if |parts| == 1 then parts[0] else parts[0] + ([sep] + JoinWith(parts[1..], sep))
  }

  lemma {:induction false} SplitPrepend(w: string, s: string, sep: char)
    requires sep !in w
    ensures Split(w + ([sep] + s), sep) == [w] + Split(s, sep)
  {
    var all := w + ([sep] + s);
    if w == [] {
      assert all == [sep] + s && all[1..] == s;
    } else {
      assert all[0] == w[0] && all[1..] == w[1..] + ([sep] + s);
      SplitPrepend(w[1..], s, sep);
      assert [w[0]] + w[1..] == w;
    }
  }

  lemma {:induction false} SplitInvertsJoin(parts: seq<string>, sep: char)
    requires parts != [] && forall p :: p in parts ==> sep !in p
    ensures Split(JoinWith(parts, sep), sep) == parts
  {
    assert parts[0] in parts;
    if |parts| == 1 {
      SplitWhole(parts[0], sep);
    } else {
      SplitInvertsJoin(parts[1..], sep);
      SplitPrepend(parts[0], JoinWith(parts[1..], sep), sep);
    }
  }

  lemma {:induction false} JoinInvertsSplit(s: string, sep: char)
    ensures JoinWith(Split(s, sep), sep) == s && forall p :: p in Split(s, sep) ==> sep !in p
  {
    if s != [] {
      var rest := Split(s[1..], sep);
      JoinInvertsSplit(s[1..], sep);
      assert rest[0] in rest;
      assert forall p :: p in rest[1..] ==> p in rest;
      if s[0] == sep {
        assert [""] + rest != [] && ([""] + rest)[1..] == rest;
      } else {
        var parts := [[s[0]] + rest[0]] + rest[1..];
        assert parts[1..] == rest[1..];
        assert JoinWith(parts, sep) == [s[0]] + JoinWith(rest, sep);
      }
    }
  }

  /** Splitting is the one way to cut a string at every separator. */
  lemma SplitIff(s: string, sep: char, parts: seq<string>)
    ensures Split(s, sep) == parts <==>
      parts != [] && (forall p :: p in parts ==> sep !in p) && JoinWith(parts, sep) == s
  {
    JoinInvertsSplit(s, sep);
    if parts != [] && (forall p :: p in parts ==> sep !in p) && JoinWith(parts, sep) == s { SplitInvertsJoin(parts, sep); }
  }
}
