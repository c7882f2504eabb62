/** The streaming tokenizer, with one character of memory and two of lookahead. */
module CodeTokenizer {
  import opened Wrappers
  import opened CodeTokens

  function BoundaryFrom(text: seq<Char>, i: nat, offset: nat): Option<nat>
    requires i <= |text|
    decreases |text| - i
  {
    if Offset(text, i) == offset then Some(i)
    else if i == |text| then None
    else BoundaryFrom(text, i + 1, offset)
  }

  lemma {:induction false} BoundaryFound(text: seq<Char>, i: nat, j: nat)
    requires i <= j <= |text|
    ensures BoundaryFrom(text, i, Offset(text, j)) == Some(j)
    decreases j - i
  {
    OffsetGrows(text, i, j);
    if i < j { BoundaryFound(text, i + 1, j); }
  }

  /** A span in which every character continues the token, ending where one does not, is the
      token's. */
  lemma {:induction false} EndIs(text: seq<Char>, i: nat, e: nat)
    requires i <= e <= |text| && !Continues(text, e) && forall j :: i <= j < e ==> Continues(text, j)
    ensures EndFrom(text, i) == e
    decreases e - i
  {
    if i < e { EndIs(text, i + 1, e); }
  }

  lemma FoldedSnoc(text: seq<Char>, s: nat, i: nat)
    requires s <= i < |text|
    ensures Folded(text[s..i + 1]) == Folded(text[s..i]) + [text[i].folded]
  {
    assert text[s..i + 1][..i - s] == text[s..i];
  }

  lemma StartsSkip(text: seq<Char>, i: nat)
    requires i < |text| && !text[i].alphanumeric
    ensures StartsFrom(text, i) == StartsFrom(text, i + 1) && !Continues(text, i + 1)
  {
  }

  /** Where the stream goes after the token starting at `s`: past its end, and past one separator. */
  function Next(text: seq<Char>, e: nat): nat {
    if e < |text| && text[e].separator then e + 1 else e
  }

  lemma AfterToken(text: seq<Char>, s: nat, e: nat)
    requires Starts(text, s) && e == EndFrom(text, s + 1)
    ensures Next(text, e) <= |text| && !Continues(text, Next(text, e))
    ensures StartsFrom(text, s) == [s] + StartsFrom(text, Next(text, e))
  {
    StartSplits(text, s);
    if e < |text| && text[e].separator { StartsSkip(text, e); }
  }

  /** The stream's test, from what it remembers and looks ahead at, is the stateless one. */
  lemma BreakIff(text: seq<Char>, i: nat, last: bool)
    requires 0 < i < |text| && text[i - 1].alphanumeric && last == LowerOrDigit(text[i - 1])
    ensures
      var c := text[i];
      (c.separator || (c.upper && last) || (c.upper && !last && i + 1 < |text| && text[i + 1].lower) || !c.alphanumeric) <==>
      !Continues(text, i)
  {
  }

  class CodeTokenStream {
    const text: seq<Char>
    var byteOffset: nat
    var position: nat
    var token: Token
    /** The character `byteOffset` points to. */
    ghost var index: nat

    /** The stream stands at a character boundary outside every token. */
    ghost predicate Valid()
      reads this
    {
      index <= |text| && byteOffset == Offset(text, index) && !Continues(text, index)
    }

    /** The token starts still ahead. */
    ghost function Pending(): seq<nat>
      requires Valid()
      reads this
    {
      StartsFrom(text, index)
    }

    constructor (text: seq<Char>)
      ensures this.text == text && Valid() && index == 0 && position == 0
    {
      this.text := text;
      byteOffset, position, token, index := 0, 0, Token([], 0, 0, 0), 0;
    }

    /** The first alphanumeric character from `from` on. */
    method Seek(from: nat) returns (found: Option<nat>)
      requires from <= |text| && !Continues(text, from)
      ensures found.None? ==> StartsFrom(text, from) == []
      ensures found.Some? ==>
        found.value < |text| && Starts(text, found.value) && StartsFrom(text, found.value) == StartsFrom(text, from)
    {
      var i := from;
      while i < |text|
        invariant from <= i <= |text| && StartsFrom(text, i) == StartsFrom(text, from) && !Continues(text, i)
      {
        if text[i].alphanumeric { return Some(i); }
        StartsSkip(text, i);
        i := i + 1;
      }
      return None;
    }

    /** `advance`: the next token by the stateless rule, or no change when none is left. */
    method Advance() returns (more: bool)
      requires Valid()
      modifies this
      ensures Valid() && (more <==> old(Pending()) != [])
      ensures more ==> token == TokenAt(text, old(Pending())[0], old(position))
      ensures more ==> Pending() == old(Pending())[1..] && position == old(position) + 1
      ensures !more ==> Pending() == [] && byteOffset == old(byteOffset) && position == old(position)
      ensures !more ==> token == old(token).(text := [], position := position)
    {
      token := token.(text := [], position := position);
      OffsetGrows(text, index, |text|);
      if byteOffset >= Offset(text, |text|) { return false; }
      BoundaryFound(text, 0, index);
      var remaining := BoundaryFrom(text, 0, byteOffset);
      if remaining.None? { return false; }
      var start := Seek(remaining.value);
      if start.None? { return false; }
      var s := start.value;
      token := token.(text := [text[s].folded], offsetFrom := Offset(text, s));
      var e := Extend(s);
      token := token.(offsetTo := Offset(text, e));
      AfterToken(text, s, e);
      byteOffset, index := Offset(text, Next(text, e)), Next(text, e);
      position := position + 1;
      return true;
    }

    /** The inner loop: characters are taken into the token until one does not continue it. */
    method Extend(s: nat) returns (e: nat)
      requires s < |text| && Starts(text, s) && token.text == [text[s].folded]
      modifies this`token
      ensures e == EndFrom(text, s + 1) && token == old(token).(text := Folded(text[s..e]))
    {
      var last := LowerOrDigit(text[s]);
      e := s + 1;
      assert text[s..e] == [text[s]] && Folded([text[s]]) == [] + [text[s].folded];
      while e < |text|
        invariant s < e <= |text| && text[e - 1].alphanumeric && last == LowerOrDigit(text[e - 1])
        invariant forall j :: s < j < e ==> Continues(text, j)
        invariant token == old(token).(text := Folded(text[s..e])) && token.text != []
      {
        var c := text[e];
        var lowerToUpper := c.upper && last;
        var acronymEnd := c.upper && !last && token.text != [] && e + 1 < |text| && text[e + 1].lower;
        BreakIff(text, e, last);
        if c.separator || lowerToUpper || acronymEnd || !c.alphanumeric {
          EndIs(text, s + 1, e);
          return;
        }
        FoldedSnoc(text, s, e);
        token := token.(text := token.text + [c.folded]);
        last := LowerOrDigit(c);
        e := e + 1;
      }
      EndIs(text, s + 1, e);
    }
  }

  /** Draining a stream yields exactly the tokens of the stateless rule. */
  method Tokenize(text: seq<Char>) returns (tokens: seq<Token>)
    ensures tokens == SpecTokens(text)
  {
    var stream := new CodeTokenStream(text);
    tokens := [];
    ghost var starts := StartsFrom(text, 0);
    var more := true;
    while more
      invariant fresh(stream) && stream.Valid() && stream.text == text && stream.position == |tokens|
      invariant |tokens| <= |starts| && stream.Pending() == starts[|tokens|..]
      invariant forall k :: 0 <= k < |tokens| ==> tokens[k] == TokenAt(text, starts[k], k)
      invariant !more ==> stream.Pending() == []
      decreases |starts| - |tokens|, more
    {
      more := stream.Advance();
      if more { tokens := tokens + [stream.token]; }
    }
    forall k | 0 <= k < |starts| ensures SpecTokens(text)[k] == tokens[k] { TokensAtIndex(text, starts, 0, k); }
  }
}
