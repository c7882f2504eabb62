/** The stateless rule for splitting identifiers: where a token starts depends only on a
    character and its two neighbours. */
module CodeTokens {

  /** What the tokenizer asks of a character: its class, its UTF-8 width, and the code it is
      folded to by ASCII lower-casing. */
  datatype Glyph = Glyph(folded: int, width: nat, alphanumeric: bool, upper: bool, lower: bool, numeric: bool, separator: bool)

  /** Unicode letters of either case and numbers are alphanumeric; '_' and '-' are not. */
  predicate Sane(g: Glyph) {
    && g.width > 0
    && (g.upper || g.lower || g.numeric ==> g.alphanumeric)
    && (g.separator ==> !g.alphanumeric)
  }

  type Char = g: Glyph | Sane(g) witness Glyph(0, 1, false, false, false, false, false)

  datatype Token = Token(text: seq<int>, offsetFrom: nat, offsetTo: nat, position: nat)

  predicate LowerOrDigit(g: Char) {
    g.lower || g.numeric
  }

  /** A token starts at an alphanumeric character that is the first, follows a
      non-alphanumeric, or is upper case between a lower case or digit and anything, or before
      a lower case. */
  predicate Starts(text: seq<Char>, i: nat) {
    i < |text| && text[i].alphanumeric &&
    (i == 0 || !text[i - 1].alphanumeric ||
     (text[i].upper && (LowerOrDigit(text[i - 1]) || (i + 1 < |text| && text[i + 1].lower))))
  }

  /** A token that has begun goes on through `i`. */
  predicate Continues(text: seq<Char>, i: nat) {
    i < |text| && text[i].alphanumeric && !Starts(text, i)
  }

  /** Where the token covering `i - 1` ends. */
  function EndFrom(text: seq<Char>, i: nat): (e: nat)
    requires i <= |text|
    ensures i <= e <= |text| && !Continues(text, e) && forall j :: i <= j < e ==> Continues(text, j)
    decreases |text| - i
  {
    if Continues(text, i) then EndFrom(text, i + 1) else i
  }

  /** All token starts from `i` on, ascending. */
  function StartsFrom(text: seq<Char>, i: nat): (r: seq<nat>)
    requires i <= |text|
    ensures forall k :: 0 <= k < |r| ==> r[k] < |text|
    decreases |text| - i
  {
    if i == |text| then []
    else if Starts(text, i) then [i] + StartsFrom(text, i + 1)
    else StartsFrom(text, i + 1)
  }

  lemma {:induction false} StartsFromSound(text: seq<Char>, i: nat, k: nat)
    requires i <= |text| && k < |StartsFrom(text, i)|
    ensures i <= StartsFrom(text, i)[k] && Starts(text, StartsFrom(text, i)[k])
    ensures k + 1 < |StartsFrom(text, i)| ==> StartsFrom(text, i)[k] < StartsFrom(text, i)[k + 1]
    decreases |text| - i
  {
    if !Starts(text, i) {
      StartsFromSound(text, i + 1, k);
    } else {
      if k > 0 { StartsFromSound(text, i + 1, k - 1); }
      if k < |StartsFrom(text, i + 1)| { StartsFromSound(text, i + 1, k); }
    }
  }

  lemma {:induction false} StartsFromComplete(text: seq<Char>, i: nat, j: nat)
    requires i <= j && Starts(text, j)
    ensures j in StartsFrom(text, i)
    decreases |text| - i
  {
    if i < j { StartsFromComplete(text, i + 1, j); }
  }

  function Offset(text: seq<Char>, i: nat): nat
    requires i <= |text|
  {
    if i == 0 then 0 else Offset(text, i - 1) + text[i - 1].width
  }

  lemma {:induction false} OffsetGrows(text: seq<Char>, i: nat, j: nat)
    requires i <= j <= |text|
    ensures Offset(text, i) <= Offset(text, j)
    ensures i < j ==> Offset(text, i) < Offset(text, j)
  {
    if i < j { OffsetGrows(text, i, j - 1); }
  }

  function Folded(text: seq<Char>): seq<int> {
    if text == [] then [] else Folded(text[..|text| - 1]) + [text[|text| - 1].folded]
  }

  /** The token that starts at `i`, as the `k`-th. */
  function TokenAt(text: seq<Char>, i: nat, k: nat): Token
    requires i < |text|
  {
    var e := EndFrom(text, i + 1);
    Token(Folded(text[i..e]), Offset(text, i), Offset(text, e), k)
  }

  /** The `k`-th and following tokens. */
  function TokensAt(text: seq<Char>, starts: seq<nat>, k: nat): (r: seq<Token>)
    requires forall i :: 0 <= i < |starts| ==> starts[i] < |text|
    ensures |r| == |starts|
  {
    if starts == [] then []
    else [TokenAt(text, starts[0], k)] + TokensAt(text, starts[1..], k + 1)
  }

  lemma {:induction false} TokensAtIndex(text: seq<Char>, starts: seq<nat>, k: nat, i: nat)
    requires i < |starts| && forall j :: 0 <= j < |starts| ==> starts[j] < |text|
    ensures TokensAt(text, starts, k)[i] == TokenAt(text, starts[i], k + i)
  {
    if i > 0 { TokensAtIndex(text, starts[1..], k + 1, i - 1); }
  }

  /** The tokens of a text by the stateless rule. */
  function SpecTokens(text: seq<Char>): (r: seq<Token>)
    ensures |r| == |StartsFrom(text, 0)|
  {
    TokensAt(text, StartsFrom(text, 0), 0)
  }

  // --- what the rule gives ---

  /** A token begins and ends on character boundaries. */
  ghost predicate OnBoundaries(text: seq<Char>, t: Token) {
    exists i: nat, e: nat :: i < e <= |text| && t.offsetFrom == Offset(text, i) && t.offsetTo == Offset(text, e)
  }

  lemma SpanOnBoundaries(text: seq<Char>, i: nat, k: nat)
    requires i < |text|
    ensures
      var t := TokenAt(text, i, k);
      OnBoundaries(text, t) && t.offsetFrom < t.offsetTo <= Offset(text, |text|)
  {
    var e := EndFrom(text, i + 1);
    OffsetGrows(text, i, e);
    OffsetGrows(text, e, |text|);
    assert i < e <= |text| && TokenAt(text, i, k).offsetTo == Offset(text, e);
  }

  lemma NextStartsAfter(text: seq<Char>, i: nat, j: nat)
    requires i < j && Starts(text, j)
    ensures Offset(text, EndFrom(text, i + 1)) <= Offset(text, j)
  {
    assert !Continues(text, j);
    OffsetGrows(text, EndFrom(text, i + 1), j);
  }

  /** Spans follow one another without overlapping, lie on character boundaries, and the k-th
      token has position k. */
  lemma SpansAreOrdered(text: seq<Char>, k: nat)
    requires k < |SpecTokens(text)|
    ensures
      var t := SpecTokens(text)[k];
      && t.position == k && OnBoundaries(text, t) && t.offsetFrom < t.offsetTo <= Offset(text, |text|)
      && (k + 1 < |SpecTokens(text)| ==> t.offsetTo <= SpecTokens(text)[k + 1].offsetFrom)
  {
    var starts := StartsFrom(text, 0);
    StartsFromSound(text, 0, k);
    TokensAtIndex(text, starts, 0, k);
    SpanOnBoundaries(text, starts[k], k);
    if k + 1 < |starts| {
      StartsFromSound(text, 0, k + 1);
      TokensAtIndex(text, starts, 0, k + 1);
      NextStartsAfter(text, starts[k], starts[k + 1]);
    }
  }

  /** The folded alphanumeric characters of a text. */
  function Letters(text: seq<Char>): seq<int> {
    if text == [] then []
    else
      var c := text[|text| - 1];
      Letters(text[..|text| - 1]) + (if c.alphanumeric then [c.folded] else [])
  }

  function Concat(tokens: seq<Token>): seq<int> {
    if tokens == [] then [] else tokens[0].text + Concat(tokens[1..])
  }

  lemma {:induction false} LettersConcat(a: seq<Char>, b: seq<Char>)
    ensures Letters(a + b) == Letters(a) + Letters(b)
  {
    if b == [] {
      assert a + b == a;
    } else {
      var init := b[..|b| - 1];
      assert (a + b)[..|a + b| - 1] == a + init;
      LettersConcat(a, init);
    }
  }

  lemma {:induction false} LettersOfWord(text: seq<Char>)
    requires forall i :: 0 <= i < |text| ==> text[i].alphanumeric
    ensures Letters(text) == Folded(text)
  {
    if text != [] { LettersOfWord(text[..|text| - 1]); }
  }

  /** Within the token starting at `i` nothing else starts. */
  lemma {:induction false} NoStartInside(text: seq<Char>, i: nat, e: nat)
    requires i <= e <= |text| && forall j :: i <= j < e ==> Continues(text, j)
    ensures StartsFrom(text, i) == StartsFrom(text, e)
    decreases e - i
  {
    if i < e {
      assert Continues(text, i);
      NoStartInside(text, i + 1, e);
    }
  }

  lemma LettersOfToken(text: seq<Char>, i: nat)
    requires Starts(text, i)
    ensures
      var e := EndFrom(text, i + 1);
      Letters(text[i..]) == Folded(text[i..e]) + Letters(text[e..])
  {
    var e := EndFrom(text, i + 1);
    forall j | i <= j < e ensures text[j].alphanumeric { assert j > i ==> Continues(text, j); }
    LettersOfWord(text[i..e]);
    assert text[i..] == text[i..e] + text[e..];
    LettersConcat(text[i..e], text[e..]);
  }

  /** After a token start the next start is past the token's end. */
  lemma StartSplits(text: seq<Char>, i: nat)
    requires Starts(text, i)
    ensures StartsFrom(text, i) == [i] + StartsFrom(text, EndFrom(text, i + 1))
  {
    NoStartInside(text, i + 1, EndFrom(text, i + 1));
  }

  ghost predicate Spells(text: seq<Char>, starts: seq<nat>, k: nat, i: nat)
    requires i <= |text| && forall j :: 0 <= j < |starts| ==> starts[j] < |text|
  {
    Concat(TokensAt(text, starts, k)) == Letters(text[i..])
  }

  lemma SpellsToken(text: seq<Char>, rest: seq<nat>, k: nat, i: nat)
    requires Starts(text, i) && forall j :: 0 <= j < |rest| ==> rest[j] < |text|
    requires Spells(text, rest, k + 1, EndFrom(text, i + 1))
    ensures Spells(text, [i] + rest, k, i)
  {
    LettersOfToken(text, i);
    var tokens := TokensAt(text, [i] + rest, k);
    assert ([i] + rest)[1..] == rest;
    assert tokens[1..] == TokensAt(text, rest, k + 1);
  }

  lemma SpellsGap(text: seq<Char>, starts: seq<nat>, k: nat, i: nat)
    requires i < |text| && !text[i].alphanumeric && forall j :: 0 <= j < |starts| ==> starts[j] < |text|
    requires Spells(text, starts, k, i + 1)
    ensures Spells(text, starts, k, i)
  {
    assert text[i..] == [text[i]] + text[i + 1..];
    LettersConcat([text[i]], text[i + 1..]);
    assert Letters([text[i]]) == [];
  }

  /** From any point that is not inside a token, the texts of the tokens to come spell the
      folded alphanumeric characters to come. */
  lemma {:induction false} TextsSpell(text: seq<Char>, i: nat, k: nat)
    requires i <= |text| && !Continues(text, i)
    ensures Spells(text, StartsFrom(text, i), k, i)
    decreases |text| - i
  {
    if i == |text| {
    } else if Starts(text, i) {
      TextsSpell(text, EndFrom(text, i + 1), k + 1);
      StartSplits(text, i);
      SpellsToken(text, StartsFrom(text, EndFrom(text, i + 1)), k, i);
    } else {
      TextsSpell(text, i + 1, k);
      SpellsGap(text, StartsFrom(text, i + 1), k, i);
    }
  }

  /** Nothing alphanumeric is lost, repeated or reordered. */
  lemma TextsAreTheLetters(text: seq<Char>)
    ensures Concat(SpecTokens(text)) == Letters(text)
  {
    TextsSpell(text, 0, 0);
    assert text[0..] == text;
  }
}
