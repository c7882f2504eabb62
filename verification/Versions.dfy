/** The partial order on version strings used to test advisory version ranges. */
module Versions {
  import opened Wrappers
  import opened Ordering

  const U64_LIMIT: nat := 0x1_0000_0000_0000_0000

  datatype Token = Number(n: nat) | Text(text: string)

  datatype VersionError = NotExact | BadCharacter(c: char) | Overflow | NoSegments | MixedSegments

  // --- tokens ---

  predicate IsDigit(c: char) { '0' <= c <= '9' }

  predicate IsLetter(c: char) { 'a' <= c <= 'z' || 'A' <= c <= 'Z' }

  predicate IsSeparator(c: char) { c == '.' || c == '-' || c == '_' || c == '+' }

  function LowerChar(c: char): char {
    if 'A' <= c <= 'Z' then (c as int + 32) as char else c
  }

  function DigitValue(c: char): nat
    requires IsDigit(c)
  {
    c as int - '0' as int
  }

  predicate AllDigits(s: string) {
    forall i :: 0 <= i < |s| ==> IsDigit(s[i])
  }

  function Value(s: string): nat
    requires AllDigits(s)
  {
    if s == [] then 0 else 10 * Value(s[..|s| - 1]) + DigitValue(s[|s| - 1])
  }

  /** `push_version_token`: a run of digits must fit in 64 bits. */
  function MakeToken(run: string, digit: bool): Result<Token, VersionError>
    requires digit ==> AllDigits(run)
  {
    if !digit then Ok(Text(run))
    else if Value(run) < U64_LIMIT then Ok(Number(Value(run)))
    else Err(Overflow)
  }

  function Prepend(tokens: seq<Token>, rest: Result<seq<Token>, VersionError>): Result<seq<Token>, VersionError> {
    if rest.Err? then rest else Ok(tokens + rest.value)
  }

  predicate RunOk(run: string, digit: Option<bool>) {
    (digit == Some(true) ==> AllDigits(run)) && (digit == None ==> run == [])
  }

  function Flush(run: string, digit: Option<bool>): Result<seq<Token>, VersionError>
    requires RunOk(run, digit)
  {
    if digit.None? then Ok([])
    else
      var t := MakeToken(run, digit.value);
      if t.Err? then Err(t.error) else Ok([t.value])
  }

  /** The tokens still to come, given the run being read. */
  function TokensFrom(s: string, run: string, digit: Option<bool>): Result<seq<Token>, VersionError>
    requires RunOk(run, digit)
    decreases |s|
  {
    if s == [] then Flush(run, digit)
    else
      var c := s[0];
      if IsDigit(c) || IsLetter(c) then
        if digit.None? || digit.value == IsDigit(c) then
          TokensFrom(s[1..], run + [LowerChar(c)], Some(IsDigit(c)))
        else
          var done := Flush(run, digit);
          if done.Err? then done else Prepend(done.value, TokensFrom(s[1..], [LowerChar(c)], Some(IsDigit(c))))
      else if IsSeparator(c) then
        var done := Flush(run, digit);
        if done.Err? then done else Prepend(done.value, TokensFrom(s[1..], [], None))
      else Err(BadCharacter(c))
  }

  function Tokens(value: string): Result<seq<Token>, VersionError> {
    if value == "" || value == "*" || value == "-" then Err(NotExact)
    else
      var r := TokensFrom(value, [], None);
      if r.Ok? && r.value == [] then Err(NoSegments) else r
  }

  lemma PrependTwice(a: seq<Token>, b: seq<Token>, r: Result<seq<Token>, VersionError>)
    ensures Prepend(a, Prepend(b, r)) == Prepend(a + b, r)
  {
    if r.Ok? { assert a + (b + r.value) == (a + b) + r.value; }
  }

  /** `version_tokens` */
  method VersionTokens(value: string) returns (r: Result<seq<Token>, VersionError>)
    ensures r == Tokens(value)
  {
    if value == "" || value == "*" || value == "-" { return Err(NotExact); }
    var tokens: seq<Token>, run: string, digit: Option<bool> := [], [], None;
    assert Prepend([], TokensFrom(value, [], None)) == TokensFrom(value, [], None) by {
      if TokensFrom(value, [], None).Ok? { assert [] + TokensFrom(value, [], None).value == TokensFrom(value, [], None).value; }
    }
    for i := 0 to |value|
      invariant RunOk(run, digit)
      invariant Prepend(tokens, TokensFrom(value[i..], run, digit)) == TokensFrom(value, [], None)
    {
      var c := value[i];
      assert value[i..][0] == c && value[i..][1..] == value[i + 1..];
      if IsDigit(c) || IsLetter(c) {
        if digit.Some? && digit.value != IsDigit(c) {
          var t := MakeToken(run, digit.value);
          if t.Err? { return Err(t.error); }
          PrependTwice(tokens, [t.value], TokensFrom(value[i + 1..], [LowerChar(c)], Some(IsDigit(c))));
          tokens, run := tokens + [t.value], [];
          assert run + [LowerChar(c)] == [LowerChar(c)];
        }
        digit := Some(IsDigit(c));
        run := run + [LowerChar(c)];
      } else if IsSeparator(c) {
        ghost var rest := TokensFrom(value[i + 1..], [], None);
        if digit.Some? {
          var t := MakeToken(run, digit.value);
          if t.Err? { return Err(t.error); }
          PrependTwice(tokens, [t.value], rest);
          tokens, run, digit := tokens + [t.value], [], None;
        } else {
          PrependTwice(tokens, [], rest);
          assert tokens + [] == tokens;
        }
      } else {
        return Err(BadCharacter(c));
      }
    }
    if digit.Some? {
      var t := MakeToken(run, digit.value);
      if t.Err? { return Err(t.error); }
      tokens := tokens + [t.value];
    } else {
      assert tokens + [] == tokens;
    }
    if tokens == [] { return Err(NoSegments); }
    return Ok(tokens);
  }

  // --- writing tokens back ---

  function Digits(n: nat): (s: string)
    ensures AllDigits(s) && |s| > 0 && Value(s) == n
  {
    var last := ('0' as int + n % 10) as char;
    if n < 10 then
      assert [last][..0] == [];
      [last]
    else
      var s := Digits(n / 10) + [last];
      assert s[..|s| - 1] == Digits(n / 10);
      s
  }

  predicate Printable(t: Token) {
    match t
    case Number(n) => n < U64_LIMIT
    case Text(s) => s != [] && forall i :: 0 <= i < |s| ==> 'a' <= s[i] <= 'z'
  }

  function Print(t: Token): string {
    match t
    case Number(n) => Digits(n)
    case Text(s) => s
  }

  function PrintAll(tokens: seq<Token>): string {
    if tokens == [] then "" else Print(tokens[0]) + "." + PrintAll(tokens[1..])
  }

  predicate OneKind(s: string, digit: bool) {
    forall i :: 0 <= i < |s| ==> (if digit then IsDigit(s[i]) else 'a' <= s[i] <= 'z')
  }

  /** Reading a run of one kind up to the dot that ends it. */
  lemma {:induction false} ReadRun(run: string, more: string, digit: bool, rest: string)
    requires OneKind(run, digit) && OneKind(more, digit) && RunOk(run, Some(digit))
    ensures RunOk(run + more, Some(digit))
    ensures
      var done := Flush(run + more, Some(digit));
      TokensFrom(more + "." + rest, run, Some(digit)) ==
      if done.Err? then done else Prepend(done.value, TokensFrom(rest, [], None))
    decreases |more|
  {
    var s := more + "." + rest;
    if more == [] {
      assert run + more == run && s[0] == '.' && s[1..] == rest;
    } else {
      assert s[0] == more[0] && s[1..] == more[1..] + "." + rest;
      assert run + more == (run + [more[0]]) + more[1..];
      ReadRun(run + [more[0]], more[1..], digit, rest);
    }
  }

  lemma ReadToken(t: Token, rest: string)
    requires Printable(t)
    ensures TokensFrom(Print(t) + "." + rest, [], None) == Prepend([t], TokensFrom(rest, [], None))
  {
    var w := Print(t);
    var digit := t.Number?;
    assert OneKind(w, digit) && w != [];
    var s := w + "." + rest;
    assert s[0] == w[0] && s[1..] == w[1..] + "." + rest;
    assert LowerChar(w[0]) == w[0];
    ReadRun([w[0]], w[1..], digit, rest);
    assert [w[0]] + w[1..] == w;
    assert [] + [w[0]] == [w[0]];
  }

  lemma {:induction false} ReadAll(tokens: seq<Token>)
    requires forall t :: t in tokens ==> Printable(t)
    ensures TokensFrom(PrintAll(tokens), [], None) == Ok(tokens)
  {
    if tokens != [] {
      ReadAll(tokens[1..]);
      ReadToken(tokens[0], PrintAll(tokens[1..]));
      assert [tokens[0]] + tokens[1..] == tokens;
    }
  }

  /** Every list of tokens is what some version string is read as. */
  lemma TokensRoundTrip(tokens: seq<Token>)
    requires tokens != [] && forall t :: t in tokens ==> Printable(t)
    ensures Tokens(PrintAll(tokens)) == Ok(tokens)
  {
    ReadAll(tokens);
    assert tokens[0] in tokens && Print(tokens[0]) != [];
    assert |PrintAll(tokens)| >= 2;
  }

  // --- comparing ---

  datatype Order = Less | Equal | Greater

  function Flip(o: Order): Order {
    match o
    case Less => Greater
    case Equal => Equal
    case Greater => Less
  }

  function TokenOrder(a: Token, b: Token): Option<Order> {
    match (a, b)
    case (Number(m), Number(n)) => Some(if m < n then Less else if m == n then Equal else Greater)
    case (Text(s), Text(t)) => Some(if s == t then Equal else if StrLeq(s, t) then Less else Greater)
    case _ => None
  }

  const ZERO := Number(0)

  /** Comparison token by token, a missing one standing for a trailing zero. */
  function Compare(a: seq<Token>, b: seq<Token>): Option<Order>
    decreases |a| + |b|
  {
    if a == [] && b == [] then Some(Equal)
    else if a == [] then if b[0] == ZERO then Compare([], b[1..]) else Some(Less)
    else if b == [] then if a[0] == ZERO then Compare(a[1..], []) else Some(Greater)
    else
      var o := TokenOrder(a[0], b[0]);
      if o == Some(Equal) then Compare(a[1..], b[1..]) else o
  }

  function Rest(s: seq<Token>, i: int): seq<Token>
    requires 0 <= i
  {
    if i < |s| then s[i..] else []
  }

  lemma RestStep(s: seq<Token>, i: int)
    requires 0 <= i
    ensures i < |s| ==> Rest(s, i) != [] && Rest(s, i)[0] == s[i] && Rest(s, i)[1..] == Rest(s, i + 1)
    ensures i >= |s| ==> Rest(s, i) == Rest(s, i + 1) == []
  {
  }

  /** The index loop of `compare_versions`. */
  method CompareTokens(a: seq<Token>, b: seq<Token>) returns (r: Result<Order, VersionError>)
    ensures r == if Compare(a, b).Some? then Ok(Compare(a, b).value) else Err(MixedSegments)
  {
    var length := if |a| > |b| then |a| else |b|;
    assert Rest(a, 0) == a && Rest(b, 0) == b;
    for i := 0 to length
      invariant Compare(Rest(a, i), Rest(b, i)) == Compare(a, b)
    {
      RestStep(a, i);
      RestStep(b, i);
      if i < |a| && i < |b| {
        var order := TokenOrder(a[i], b[i]);
        if order.None? { return Err(MixedSegments); }
        if order.value != Equal { return Ok(order.value); }
      } else if i < |a| {
        if a[i] != ZERO { return Ok(Greater); }
      } else {
        if b[i] != ZERO { return Ok(Less); }
      }
    }
    return Ok(Equal);
  }

  function Versus(left: string, right: string): Option<Order> {
    if Tokens(left).Err? || Tokens(right).Err? then None else Compare(Tokens(left).value, Tokens(right).value)
  }

  /** `compare_versions` */
  method CompareVersions(left: string, right: string) returns (r: Result<Order, VersionError>)
    ensures r.Ok? <==> Versus(left, right).Some?
    ensures r.Ok? ==> Versus(left, right) == Some(r.value)
  {
    var a := VersionTokens(left);
    if a.Err? { return Err(a.error); }
    var b := VersionTokens(right);
    if b.Err? { return Err(b.error); }
    r := CompareTokens(a.value, b.value);
  }

  // --- what kind of order it is ---

  lemma TokenOrderFlips(a: Token, b: Token)
    ensures TokenOrder(a, b).None? <==> TokenOrder(b, a).None?
    ensures TokenOrder(a, b).Some? ==> TokenOrder(b, a) == Some(Flip(TokenOrder(a, b).value))
  {
    if a.Text? && b.Text? {
      StrLeqTotal(a.text, b.text);
      if StrLeq(a.text, b.text) && StrLeq(b.text, a.text) { StrLeqAntisymmetric(a.text, b.text); }
    }
  }

  lemma {:induction false} Reflexive(a: seq<Token>)
    ensures Compare(a, a) == Some(Equal)
  {
    if a != [] { Reflexive(a[1..]); }
  }

  /** Swapping the arguments reverses the answer, and fails exactly when the other order does. */
  lemma {:induction false} Flips(a: seq<Token>, b: seq<Token>)
    ensures Compare(a, b).None? <==> Compare(b, a).None?
    ensures Compare(a, b).Some? ==> Compare(b, a) == Some(Flip(Compare(a, b).value))
    decreases |a| + |b|
  {
    if a == [] && b == [] {
    } else if a == [] {
      if b[0] == ZERO { Flips([], b[1..]); }
    } else if b == [] {
      if a[0] == ZERO { Flips(a[1..], []); }
    } else {
      TokenOrderFlips(a[0], b[0]);
      if TokenOrder(a[0], b[0]) == Some(Equal) { Flips(a[1..], b[1..]); }
    }
  }

  predicate AtMost(o: Option<Order>) {
    o == Some(Less) || o == Some(Equal)
  }

  lemma TokenOrderTransitive(a: Token, b: Token, c: Token)
    requires AtMost(TokenOrder(a, b)) && AtMost(TokenOrder(b, c))
    ensures AtMost(TokenOrder(a, c))
    ensures TokenOrder(a, c) == Some(Equal) <==> a == b == c
  {
    if a.Text? {
      StrLeqReflexive(a.text);
      StrLeqReflexive(b.text);
      StrLeqTransitive(a.text, b.text, c.text);
      if a.text == c.text { StrLeqAntisymmetric(a.text, b.text); }
    }
  }

  function Tail(s: seq<Token>): seq<Token> {
    if s == [] then [] else s[1..]
  }

  lemma {:induction false} NotBelowEmpty(a: seq<Token>)
    ensures Compare(a, []) == Some(Equal) || Compare(a, []) == Some(Greater)
  {
    if a != [] { NotBelowEmpty(a[1..]); }
  }

  /** Below something that is at most `c` is below `c`; in particular the two compare. */
  lemma {:induction false} LessThenAtMost(a: seq<Token>, b: seq<Token>, c: seq<Token>)
    requires Compare(a, b) == Some(Less) && AtMost(Compare(b, c))
    ensures Compare(a, c) == Some(Less)
    decreases |a| + |b| + |c|
  {
    NotBelowEmpty(a);
    if a != [] && b != [] && c != [] { TokenOrderTransitive(a[0], b[0], c[0]); }
    if Compare(Tail(a), Tail(b)) == Some(Less) && AtMost(Compare(Tail(b), Tail(c))) && (a != [] || b != []) {
      LessThenAtMost(Tail(a), Tail(b), Tail(c));
    }
  }

  /** `Equal` is an equivalence. */
  lemma {:induction false} EqualTransitive(a: seq<Token>, b: seq<Token>, c: seq<Token>)
    requires Compare(a, b) == Some(Equal) && Compare(b, c) == Some(Equal)
    ensures Compare(a, c) == Some(Equal)
    decreases |a| + |b| + |c|
  {
    if a != [] && b != [] && c != [] { TokenOrderTransitive(a[0], b[0], c[0]); }
    if a != [] || b != [] || c != [] { EqualTransitive(Tail(a), Tail(b), Tail(c)); }
  }

  lemma EqualThenLess(a: seq<Token>, b: seq<Token>, c: seq<Token>)
    requires Compare(a, b) == Some(Equal) && Compare(b, c) == Some(Less) && Compare(a, c).Some?
    ensures Compare(a, c) == Some(Less)
  {
    Flips(a, c);
    Flips(a, b);
    Flips(b, c);
    if Compare(a, c) == Some(Equal) {
      EqualTransitive(b, a, c);
    } else if Compare(a, c) == Some(Greater) {
      LessThenAtMost(c, a, b);
    }
  }

  /** Transitivity, where all three comparisons are defined. */
  lemma Transitive(a: seq<Token>, b: seq<Token>, c: seq<Token>)
    requires AtMost(Compare(a, b)) && AtMost(Compare(b, c)) && Compare(a, c).Some?
    ensures AtMost(Compare(a, c))
    ensures Compare(a, c) == Some(Equal) <==> Compare(a, b) == Some(Equal) && Compare(b, c) == Some(Equal)
  {
    if Compare(a, b) == Some(Less) {
      LessThenAtMost(a, b, c);
    } else if Compare(b, c) == Some(Equal) {
      EqualTransitive(a, b, c);
    } else {
      EqualThenLess(a, b, c);
    }
  }

  /** The third comparison need not be defined: 1.0 equals 1, and 1 is below 1.a, but 1.0 and
      1.a do not compare. */
  lemma EqualDoesNotSubstitute()
    ensures Compare([Number(1), ZERO], [Number(1)]) == Some(Equal)
    ensures Compare([Number(1)], [Number(1), Text("a")]) == Some(Less)
    ensures Compare([Number(1), ZERO], [Number(1), Text("a")]) == None
  {
    assert [Number(1), ZERO][1..] == [ZERO] && [Number(1)][1..] == [] && [Number(1), Text("a")][1..] == [Text("a")];
    assert [ZERO][1..] == [] && Compare([ZERO], []) == Compare([], []);
  }

  /** Where the other version goes on with text exactly after the tokens of `a`. */
  predicate TextFollows(a: seq<Token>, b: seq<Token>) {
    |a| < |b| && b[..|a|] == a && b[|a|].Text?
  }

  /** A trailing zero is irrelevant unless the other version has text in its place; then the
      two no longer compare. */
  lemma {:induction false} TrailingZero(a: seq<Token>, b: seq<Token>)
    ensures TextFollows(a, b) ==> Compare(a, b) == Some(Less) && Compare(a + [ZERO], b) == None
    ensures !TextFollows(a, b) ==> Compare(a + [ZERO], b) == Compare(a, b)
    decreases |a| + |b|
  {
    var z := a + [ZERO];
    if a == [] {
      assert z == [ZERO] && z[1..] == [];
      if b != [] && b[0].Number? && b[0].n == 0 { assert Compare(z, b) == Compare([], b[1..]); }
    } else {
      assert z[0] == a[0] && z[1..] == a[1..] + [ZERO];
      if b == [] {
        if a[0] == ZERO { TrailingZero(a[1..], []); }
      } else {
        TrailingZero(a[1..], b[1..]);
        if a[0] == b[0] && TextFollows(a[1..], b[1..]) { assert b[..|a|] == [b[0]] + b[1..][..|a| - 1]; }
        if TextFollows(a, b) { assert b[1..][..|a| - 1] == b[..|a|][1..]; }
        if TokenOrder(a[0], b[0]) == Some(Equal) { assert a[0] == b[0]; }
      }
    }
  }

  /** Equal so far, then a number against text. */
  predicate MixedAt(a: seq<Token>, c: seq<Token>, k: int) {
    0 <= k < |a| && k < |c| && a[..k] == c[..k] && (a[k].Number? <==> c[k].Text?)
  }

  lemma {:induction false} UndefinedIff(a: seq<Token>, c: seq<Token>)
    ensures Compare(a, c) == None <==> exists k :: MixedAt(a, c, k)
    decreases |a| + |c|
  {
    if a == [] {
      NotBelowEmpty(c);
      Flips([], c);
    } else if c == [] {
      NotBelowEmpty(a);
    } else {
      UndefinedIff(a[1..], c[1..]);
      MixedStep(a, c);
    }
  }

  lemma MixedStep(a: seq<Token>, c: seq<Token>)
    requires a != [] && c != []
    ensures (exists k :: MixedAt(a, c, k)) <==>
      TokenOrder(a[0], c[0]).None? || (a[0] == c[0] && exists k :: MixedAt(a[1..], c[1..], k))
  {
    if k :| MixedAt(a, c, k) {
      if k > 0 {
        assert a[0] == a[..k][0] == c[..k][0] == c[0];
        assert a[1..][..k - 1] == a[..k][1..] && c[1..][..k - 1] == c[..k][1..];
        assert MixedAt(a[1..], c[1..], k - 1);
      }
    }
    if TokenOrder(a[0], c[0]).None? {
      assert a[..0] == c[..0];
      assert MixedAt(a, c, 0);
    }
    if a[0] == c[0] {
      if k :| MixedAt(a[1..], c[1..], k) {
        assert a[..k + 1] == [a[0]] + a[1..][..k] && c[..k + 1] == [c[0]] + c[1..][..k];
        assert MixedAt(a, c, k + 1);
      }
    }
  }

  /** Equal versions differ only in trailing zeros. */
  lemma {:induction false} EqualTokens(a: seq<Token>, b: seq<Token>, k: int)
    requires Compare(a, b) == Some(Equal) && 0 <= k < |a|
    ensures if k < |b| then a[k] == b[k] else a[k] == ZERO
    decreases |a| + |b|
  {
    if k > 0 { EqualTokens(Tail(a), Tail(b), k - 1); }
  }

  /** Replacing a version by an equal one loses a comparison exactly when a zero of it meets
      text: that zero is one the other version does without. */
  lemma SubstitutionFailsIff(a: seq<Token>, b: seq<Token>, c: seq<Token>)
    requires Compare(a, b) == Some(Equal) && Compare(b, c).Some?
    ensures Compare(a, c) == None <==> exists k :: 0 <= k < |a| && a[k] == ZERO && TextFollows(a[..k], c)
  {
    UndefinedIff(a, c);
    UndefinedIff(b, c);
    if k :| MixedAt(a, c, k) {
      ZeroMeetsText(a, b, c, k);
    }
    if k :| 0 <= k < |a| && a[k] == ZERO && TextFollows(a[..k], c) {
      assert MixedAt(a, c, k);
    }
  }

  lemma ZeroMeetsText(a: seq<Token>, b: seq<Token>, c: seq<Token>, k: int)
    requires Compare(a, b) == Some(Equal) && !(exists j :: MixedAt(b, c, j)) && MixedAt(a, c, k)
    ensures a[k] == ZERO && TextFollows(a[..k], c)
  {
    EqualTokens(a, b, k);
    if k < |b| {
      forall j | 0 <= j < k ensures a[j] == b[j] { EqualTokens(a, b, j); }
      assert b[..k] == a[..k];
      assert MixedAt(b, c, k);
    }
  }

  // --- version ranges ---

  datatype Bounds = Bounds(
    startIncluding: Option<seq<Token>>,
    startExcluding: Option<seq<Token>>,
    endIncluding: Option<seq<Token>>,
    endExcluding: Option<seq<Token>>)

  predicate Above(v: seq<Token>, bound: Option<seq<Token>>, inclusive: bool) {
    bound.Some? ==> Compare(v, bound.value) == Some(Greater) || (inclusive && Compare(v, bound.value) == Some(Equal))
  }

  predicate Below(v: seq<Token>, bound: Option<seq<Token>>, inclusive: bool) {
    bound.Some? ==> Compare(v, bound.value) == Some(Less) || (inclusive && Compare(v, bound.value) == Some(Equal))
  }

  predicate Within(v: seq<Token>, b: Bounds) {
    && Above(v, b.startIncluding, true) && Above(v, b.startExcluding, false)
    && Below(v, b.endIncluding, true) && Below(v, b.endExcluding, false)
  }

  predicate Comparable(v: seq<Token>, bound: Option<seq<Token>>) {
    bound.Some? ==> Compare(v, bound.value).Some?
  }

  predicate AllComparable(v: seq<Token>, b: Bounds) {
    Comparable(v, b.startIncluding) && Comparable(v, b.startExcluding) && Comparable(v, b.endIncluding) && Comparable(v, b.endExcluding)
  }

  lemma AboveRises(u: seq<Token>, v: seq<Token>, bound: Option<seq<Token>>, inclusive: bool)
    requires AtMost(Compare(u, v)) && Above(u, bound, inclusive) && Comparable(v, bound)
    ensures Above(v, bound, inclusive)
  {
    if bound.Some? {
      Flips(u, bound.value);
      Flips(v, bound.value);
      Transitive(bound.value, u, v);
    }
  }

  lemma BelowFalls(v: seq<Token>, w: seq<Token>, bound: Option<seq<Token>>, inclusive: bool)
    requires AtMost(Compare(v, w)) && Below(w, bound, inclusive) && Comparable(v, bound)
    ensures Below(v, bound, inclusive)
  {
    if bound.Some? { Transitive(v, w, bound.value); }
  }

  /** The accepted versions form an interval: a version between two accepted ones that the
      bounds can be compared with is accepted. */
  lemma AcceptedFormInterval(u: seq<Token>, v: seq<Token>, w: seq<Token>, b: Bounds)
    requires Within(u, b) && Within(w, b) && AllComparable(v, b)
    requires AtMost(Compare(u, v)) && AtMost(Compare(v, w))
    ensures Within(v, b)
  {
    AboveRises(u, v, b.startIncluding, true);
    AboveRises(u, v, b.startExcluding, false);
    BelowFalls(v, w, b.endIncluding, true);
    BelowFalls(v, w, b.endExcluding, false);
  }
}
