/** Identifiers written in camelCase, snake_case or kebab-case, acronyms included, are split
    into the words they were put together from. */
module CodeIdentifiers {
  import opened CodeTokens

  // --- words ---

  predicate IsSmall(c: Char) {
    c.alphanumeric && !c.upper && (c.lower || c.numeric)
  }

  predicate IsBig(c: Char) {
    c.upper && !c.lower && !c.numeric
  }

  predicate AllSmall(s: seq<Char>) {
    forall i :: 0 <= i < |s| ==> IsSmall(s[i])
  }

  /** `word`, `x2` */
  predicate IsLowWord(w: seq<Char>) {
    w != [] && AllSmall(w)
  }

  /** `Word`: a capital, a lower-case letter, and more of those or digits. */
  predicate IsCapWord(w: seq<Char>) {
    |w| > 1 && IsBig(w[0]) && w[1].lower && AllSmall(w[1..])
  }

  /** `HTTP`, `X` */
  predicate IsAcronym(w: seq<Char>) {
    w != [] && forall i :: 0 <= i < |w| ==> IsBig(w[i])
  }

  predicate IsWord(w: seq<Char>) {
    IsLowWord(w) || IsCapWord(w) || IsAcronym(w)
  }

  predicate IsGap(s: seq<Char>) {
    forall i :: 0 <= i < |s| ==> !s[i].alphanumeric
  }

  /** A word and what separates it from the next one. */
  datatype Part = Part(word: seq<Char>, gap: seq<Char>)

  /** Two words may stand together when the second begins with a capital, and is a capitalised
      word if the first is an acronym. */
  predicate MayFollow(p: Part, q: Part) {
    p.gap != [] || IsCapWord(q.word) || (IsAcronym(q.word) && !IsAcronym(p.word))
  }

  predicate Joins(ps: seq<Part>, i: int) {
    0 <= i < |ps| - 1 ==> MayFollow(ps[i], ps[i + 1])
  }

  ghost predicate PartsOk(ps: seq<Part>) {
    (forall i :: 0 <= i < |ps| ==> IsWord(ps[i].word) && IsGap(ps[i].gap)) && forall i :: Joins(ps, i)
  }

  function Write(ps: seq<Part>): seq<Char> {
    if ps == [] then [] else ps[0].word + (ps[0].gap + Write(ps[1..]))
  }

  // --- one word in a text ---

  /** `s` stands in the text at `i`. */
  ghost predicate At(text: seq<Char>, i: nat, s: seq<Char>) {
    i + |s| <= |text| && forall k :: 0 <= k < |s| ==> text[i + k] == s[k]
  }

  lemma WordIsAlphanumeric(w: seq<Char>, k: nat)
    requires IsWord(w) && k < |w|
    ensures w[k].alphanumeric
  {
    if IsCapWord(w) && k > 0 { assert w[k] == w[1..][k - 1]; }
  }

  /** After an upper-case letter inside an acronym comes no lower-case one. */
  ghost predicate NotLowAt(text: seq<Char>, j: nat) {
    j < |text| ==> !text[j].lower
  }

  /** Inside a word no token starts. */
  lemma InsideWord(text: seq<Char>, i: nat, w: seq<Char>, k: nat)
    requires IsWord(w) && At(text, i, w) && 0 < k < |w|
    requires IsAcronym(w) ==> NotLowAt(text, i + |w|)
    ensures Continues(text, i + k)
  {
    WordIsAlphanumeric(w, k);
    WordIsAlphanumeric(w, k - 1);
    assert text[i + k] == w[k] && text[i + k - 1] == w[k - 1];
    if IsAcronym(w) {
      assert IsBig(w[k]) && IsBig(w[k - 1]);
      if k + 1 < |w| { assert text[i + k + 1] == w[k + 1] && IsBig(w[k + 1]); }
    } else if IsCapWord(w) {
      assert w[k] == w[1..][k - 1] && IsSmall(w[1..][k - 1]);
    } else {
      assert IsSmall(w[k]);
    }
  }

  /** Where the text before position `i` allows a token to start with the word. */
  ghost predicate OpensAt(text: seq<Char>, i: nat, w: seq<Char>) {
    || i == 0
    || (i <= |text| && !text[i - 1].alphanumeric)
    || IsCapWord(w)
    || (IsAcronym(w) && i <= |text| && LowerOrDigit(text[i - 1]))
  }

  lemma WordStarts(text: seq<Char>, i: nat, w: seq<Char>)
    requires IsWord(w) && At(text, i, w) && OpensAt(text, i, w)
    ensures Starts(text, i)
  {
    WordIsAlphanumeric(w, 0);
    assert text[i] == w[0];
    if IsCapWord(w) { assert text[i + 1] == w[1]; }
    if IsAcronym(w) { assert IsBig(w[0]); }
  }

  /** The token that starts with the word is the word. */
  lemma WordIsToken(text: seq<Char>, i: nat, w: seq<Char>)
    requires IsWord(w) && At(text, i, w) && OpensAt(text, i, w) && !Continues(text, i + |w|)
    requires IsAcronym(w) ==> NotLowAt(text, i + |w|)
    ensures Starts(text, i) && EndFrom(text, i + 1) == i + |w| && text[i..i + |w|] == w
  {
    WordStarts(text, i, w);
    forall j | i + 1 <= j < i + |w| ensures Continues(text, j) { InsideWord(text, i, w, j - i); }
    assert EndFrom(text, i + 1) == i + |w|;
  }

  lemma {:induction false} SkipInside(text: seq<Char>, j: nat, e: nat)
    requires j <= e <= |text| && forall k :: j <= k < e ==> !Starts(text, k)
    ensures StartsFrom(text, j) == StartsFrom(text, e)
    decreases e - j
  {
    if j < e { SkipInside(text, j + 1, e); }
  }

  // --- a whole identifier ---

  /** The rest of the text from `i` on is written as these parts. */
  ghost predicate Reads(text: seq<Char>, i: nat, ps: seq<Part>) {
    i <= |text| && text[i..] == Write(ps) && PartsOk(ps) && (ps != [] ==> OpensAt(text, i, ps[0].word))
  }

  lemma PartsTail(ps: seq<Part>)
    requires PartsOk(ps) && ps != []
    ensures IsWord(ps[0].word) && IsGap(ps[0].gap) && PartsOk(ps[1..])
    ensures |ps| > 1 ==> MayFollow(ps[0], ps[1]) && IsWord(ps[1].word)
  {
    var rest := ps[1..];
    forall i | 0 <= i < |rest| ensures IsWord(rest[i].word) && IsGap(rest[i].gap) { assert rest[i] == ps[i + 1]; }
    forall i ensures Joins(rest, i) { assert Joins(ps, i + 1); }
    assert Joins(ps, 0);
  }

  /** Where the first word, the gap after it and the rest stand. */
  lemma FirstPart(text: seq<Char>, i: nat, ps: seq<Part>)
    requires i <= |text| && text[i..] == Write(ps) && ps != []
    ensures
      var w, g := ps[0].word, ps[0].gap;
      && At(text, i, w) && At(text, i + |w|, g) && i + |w| + |g| <= |text|
      && text[i + |w| + |g|..] == Write(ps[1..])
  {
    var w, g, s := ps[0].word, ps[0].gap, text[i..];
    assert s == w + (g + Write(ps[1..]));
    forall k | 0 <= k < |w| ensures text[i + k] == w[k] { assert s[k] == w[k]; }
    forall k | 0 <= k < |g| ensures text[i + |w| + k] == g[k] { assert s[|w| + k] == g[k]; }
    assert text[i + |w| + |g|..] == s[|w| + |g|..];
  }

  lemma NextWordBegins(text: seq<Char>, j: nat, ps: seq<Part>)
    requires j <= |text| && text[j..] == Write(ps) && ps != [] && IsWord(ps[0].word)
    ensures j < |text| && text[j] == ps[0].word[0]
  {
    FirstPart(text, j, ps);
    assert text[j + 0] == ps[0].word[0];
  }

  lemma LastIsSmall(w: seq<Char>)
    requires IsWord(w) && !IsAcronym(w)
    ensures LowerOrDigit(w[|w| - 1])
  {
    if IsCapWord(w) { assert w[|w| - 1] == w[1..][|w| - 2] && IsSmall(w[1..][|w| - 2]); } else { assert IsSmall(w[|w| - 1]); }
  }

  /** After a word the token ends, and an acronym is not followed by a lower-case letter. */
  lemma AfterWord(text: seq<Char>, i: nat, ps: seq<Part>)
    requires Reads(text, i, ps) && ps != []
    ensures
      var e := i + |ps[0].word|;
      && (IsAcronym(ps[0].word) ==> NotLowAt(text, e))
      && (|ps| > 1 ==> OpensAt(text, e + |ps[0].gap|, ps[1].word))
  {
    PartsTail(ps);
    FirstPart(text, i, ps);
    var w, g := ps[0].word, ps[0].gap;
    var e := i + |w|;
    if g != [] {
      assert text[e + 0] == g[0] && !g[0].alphanumeric;
      assert text[e + (|g| - 1)] == g[|g| - 1] && !g[|g| - 1].alphanumeric;
    } else if |ps| > 1 {
      NextWordBegins(text, e, ps[1..]);
      assert text[i + (|w| - 1)] == w[|w| - 1];
      if !IsAcronym(w) { LastIsSmall(w); }
    }
  }

  lemma EndsThere(text: seq<Char>, i: nat, ps: seq<Part>)
    requires Reads(text, i, ps) && ps != []
    ensures !Continues(text, i + |ps[0].word|)
  {
    AfterWord(text, i, ps);
    PartsTail(ps);
    FirstPart(text, i, ps);
    var e, g := i + |ps[0].word|, ps[0].gap;
    if g != [] {
      assert text[e + 0] == g[0] && !g[0].alphanumeric;
    } else if |ps| > 1 {
      FirstPart(text, e, ps[1..]);
      WordStarts(text, e, ps[1].word);
    }
  }

  lemma NoStartInGap(text: seq<Char>, e: nat, g: seq<Char>)
    requires IsGap(g) && At(text, e, g)
    ensures forall k :: e <= k < e + |g| ==> !Starts(text, k)
  {
    forall k | e <= k < e + |g| ensures !Starts(text, k) { assert text[e + (k - e)] == g[k - e]; }
  }

  function NextAt(i: nat, p: Part): nat {
    i + |p.word| + |p.gap|
  }

  /** The first word is a token. */
  lemma FirstIsToken(text: seq<Char>, i: nat, ps: seq<Part>)
    requires Reads(text, i, ps) && ps != []
    ensures
      var w := ps[0].word;
      Starts(text, i) && EndFrom(text, i + 1) == i + |w| && i + |w| <= |text| && text[i..i + |w|] == w
  {
    PartsTail(ps);
    FirstPart(text, i, ps);
    AfterWord(text, i, ps);
    EndsThere(text, i, ps);
    WordIsToken(text, i, ps[0].word);
  }

  lemma RestReads(text: seq<Char>, i: nat, ps: seq<Part>)
    requires Reads(text, i, ps) && ps != []
    ensures Reads(text, NextAt(i, ps[0]), ps[1..])
  {
    PartsTail(ps);
    FirstPart(text, i, ps);
    AfterWord(text, i, ps);
  }

  /** The next token to come starts where the next word does. */
  lemma FirstStarts(text: seq<Char>, i: nat, ps: seq<Part>)
    requires Reads(text, i, ps) && ps != []
    ensures NextAt(i, ps[0]) <= |text| && StartsFrom(text, i) == [i] + StartsFrom(text, NextAt(i, ps[0]))
  {
    var e := i + |ps[0].word|;
    PartsTail(ps);
    FirstPart(text, i, ps);
    FirstIsToken(text, i, ps);
    StartSplits(text, i);
    NoStartInGap(text, e, ps[0].gap);
    SkipInside(text, e, e + |ps[0].gap|);
  }

  function Texts(ps: seq<Part>): seq<seq<int>> {
    if ps == [] then [] else [Folded(ps[0].word)] + Texts(ps[1..])
  }

  function TextsOf(tokens: seq<Token>): seq<seq<int>> {
    if tokens == [] then [] else [tokens[0].text] + TextsOf(tokens[1..])
  }

  lemma FirstText(text: seq<Char>, i: nat, w: seq<Char>, rest: seq<nat>, k: nat)
    requires i < |text| && EndFrom(text, i + 1) == i + |w| && i + |w| <= |text| && text[i..i + |w|] == w
    requires forall j :: 0 <= j < |rest| ==> rest[j] < |text|
    ensures TextsOf(TokensAt(text, [i] + rest, k)) == [Folded(w)] + TextsOf(TokensAt(text, rest, k + 1))
  {
    assert ([i] + rest)[1..] == rest;
    var tokens := TokensAt(text, [i] + rest, k);
    assert tokens[0] == TokenAt(text, i, k) && tokens[1..] == TokensAt(text, rest, k + 1);
  }

  lemma {:induction false} TokensAreWords(text: seq<Char>, i: nat, ps: seq<Part>, k: nat)
    requires Reads(text, i, ps)
    ensures TextsOf(TokensAt(text, StartsFrom(text, i), k)) == Texts(ps)
    decreases |ps|
  {
    if ps == [] {
      assert i == |text|;
    } else {
      FirstIsToken(text, i, ps);
      FirstStarts(text, i, ps);
      RestReads(text, i, ps);
      TokensAreWords(text, NextAt(i, ps[0]), ps[1..], k + 1);
      FirstText(text, i, ps[0].word, StartsFrom(text, NextAt(i, ps[0])), k);
    }
  }

  /** Splitting an identifier gives back its words, folded to lower case and in order. */
  lemma IdentifierRoundTrip(ps: seq<Part>)
    requires PartsOk(ps)
    ensures TextsOf(SpecTokens(Write(ps))) == Texts(ps)
  {
    var text := Write(ps);
    assert text[0..] == text && Reads(text, 0, ps);
    TokensAreWords(text, 0, ps, 0);
  }
}
