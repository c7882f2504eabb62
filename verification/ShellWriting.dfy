/** Splitting undoes every way of writing a list of statements: bare, quoted or escaped words,
    any blanks between them, and any operator after a statement. */
module ShellWriting {
  import opened Text
  import opened ShellSplit
  import opened ShellExpand

  // --- how a word may be written ---

  /** A piece of a word: plain characters, a quoted stretch, one escaped character, or the
      redirection that overwrites. */
  datatype Piece = Bare(text: string) | Single(text: string) | Double(text: string) | Escaped(c: char) | Clobber

  predicate PieceOk(p: Piece) {
    match p
    case Bare(t) => t != "" && forall i :: 0 <= i < |t| ==> Plain(t[i])
    case Single(t) => '\'' !in t
    case _ => true
  }

  /** What the piece stands for. */
  function Meaning(p: Piece): string {
    match p
    case Bare(t) => t
    case Single(t) => t
    case Double(t) => t
    case Escaped(c) => [c]
    case Clobber => ">|"
  }

  /** Between double quotes a backslash protects the quote and itself. */
  function Protect(t: string, rest: string): string {
    if t == "" then rest
    else (if t[0] == '"' || t[0] == '\\' then ['\\', t[0]] else [t[0]]) + Protect(t[1..], rest)
  }

  /** The piece as it is written, and what follows it. */
  function WritePiece(p: Piece, rest: string): string {
    match p
    case Bare(t) => t + rest
    case Single(t) => Quote(t, rest)
    case Double(t) => "\"" + Protect(t, "\"" + rest)
    case Escaped(c) => ['\\', c] + rest
    case Clobber => ">|" + rest
  }

  predicate IsQuoted(p: Piece) {
    p.Single? || p.Double?
  }

  /** Outside quotes. */
  predicate Open(st: State) {
    !st.single && !st.double
  }

  function After(st: State, p: Piece): State {
    st.(tok := st.tok + Meaning(p), quoted := st.quoted || IsQuoted(p))
  }

  lemma {:induction false} ReadDouble(st: State, t: string, rest: string)
    requires st.double && !st.single
    ensures Run(st, Protect(t, rest)) == Run(st.(tok := st.tok + t), rest)
    decreases |t|
  {
    if t == "" {
      assert st.tok + t == st.tok;
    } else {
      var s, more := Protect(t, rest), Protect(t[1..], rest);
      if t[0] == '"' || t[0] == '\\' {
        assert s[0] == '\\' && s[1] == t[0] && s[2..] == more;
      } else {
        assert s[0] == t[0] && s[1..] == more;
      }
      assert Run(st, s) == Run(Push(st, t[0]), more);
      ReadDouble(Push(st, t[0]), t[1..], rest);
      assert (st.tok + [t[0]]) + t[1..] == st.tok + t;
    }
  }

  lemma ReadSinglePiece(st: State, t: string, rest: string)
    requires Open(st) && '\'' !in t
    ensures Run(st, WritePiece(Single(t), rest)) == Run(After(st, Single(t)), rest)
  {
    var s := Quote(t, rest);
    assert s[0] == '\'' && s[1..] == t + ("'" + rest);
    ReadQuoted(st.(single := true, quoted := true), t, "'" + rest);
    assert ("'" + rest)[1..] == rest;
  }

  lemma ReadDoublePiece(st: State, t: string, rest: string)
    requires Open(st)
    ensures Run(st, WritePiece(Double(t), rest)) == Run(After(st, Double(t)), rest)
  {
    var s := WritePiece(Double(t), rest);
    assert s[0] == '"' && s[1..] == Protect(t, "\"" + rest);
    ReadDouble(st.(double := true, quoted := true), t, "\"" + rest);
    assert ("\"" + rest)[1..] == rest;
  }

  lemma ReadEscaped(st: State, c: char, rest: string)
    requires Open(st)
    ensures Run(st, WritePiece(Escaped(c), rest)) == Run(After(st, Escaped(c)), rest)
  {
    var s := WritePiece(Escaped(c), rest);
    assert s[0] == '\\' && s[1] == c && s[2..] == rest;
  }

  lemma ReadClobber(st: State, rest: string)
    requires Open(st)
    ensures Run(st, WritePiece(Clobber, rest)) == Run(After(st, Clobber), rest)
  {
    var s, mid := WritePiece(Clobber, rest), Push(st, '>');
    assert s[0] == '>' && s[1..] == "|" + rest;
    assert Run(st, s) == Run(mid, s[1..]);
    assert s[1..][0] == '|' && s[1..][1..] == rest && EndsWithRedirect(mid.tok);
    assert Run(mid, s[1..]) == Run(Push(mid, '|'), rest);
    assert (st.tok + ">") + "|" == st.tok + ">|";
  }

  lemma ReadPiece(st: State, p: Piece, rest: string)
    requires Open(st) && PieceOk(p)
    ensures Run(st, WritePiece(p, rest)) == Run(After(st, p), rest)
  {
    match p {
      case Bare(t) => ReadWord(st, t, rest);
      case Single(t) => ReadSinglePiece(st, t, rest);
      case Double(t) => ReadDoublePiece(st, t, rest);
      case Escaped(c) => ReadEscaped(st, c, rest);
      case Clobber => ReadClobber(st, rest);
    }
  }

  // --- words ---

  type Word = seq<Piece>

  predicate WordOk(w: Word) {
    w != [] && forall i :: 0 <= i < |w| ==> PieceOk(w[i])
  }

  function TokenOf(w: Word): string {
    if w == [] then "" else Meaning(w[0]) + TokenOf(w[1..])
  }

  function WriteWord(w: Word, rest: string): string {
    if w == [] then rest else WritePiece(w[0], WriteWord(w[1..], rest))
  }

  /** The state after the word has been read into the current token. */
  function AfterWord(st: State, w: Word): State
    decreases |w|
  {
    if w == [] then st else AfterWord(After(st, w[0]), w[1..])
  }

  lemma {:induction false} AfterWordIs(st: State, w: Word)
    requires forall i :: 0 <= i < |w| ==> PieceOk(w[i])
    ensures
      var st' := AfterWord(st, w);
      && st' == st.(tok := st.tok + TokenOf(w), quoted := st'.quoted)
      && (st.quoted ==> st'.quoted) && (w != [] ==> st'.tok != "" || st'.quoted)
    decreases |w|
  {
    if w == [] {
      assert st.tok + TokenOf(w) == st.tok;
    } else {
      assert PieceOk(w[0]);
      AfterWordIs(After(st, w[0]), w[1..]);
      assert (st.tok + Meaning(w[0])) + TokenOf(w[1..]) == st.tok + TokenOf(w);
    }
  }

  lemma {:induction false} ReadPieces(st: State, w: Word, rest: string)
    requires Open(st) && forall i :: 0 <= i < |w| ==> PieceOk(w[i])
    ensures Run(st, WriteWord(w, rest)) == Run(AfterWord(st, w), rest)
    decreases |w|
  {
    if w != [] {
      ReadPiece(st, w[0], WriteWord(w[1..], rest));
      ReadPieces(After(st, w[0]), w[1..], rest);
    }
  }

  // --- statements ---

  predicate IsBlank(c: char) {
    IsWhitespace(c) && c != '\n'
  }

  predicate Blanks(s: string) {
    forall i :: 0 <= i < |s| ==> IsBlank(s[i])
  }

  /** A blank closes the current token, if there is one. */
  lemma ReadBlank(st: State, c: char, rest: string)
    requires Open(st) && IsBlank(c)
    ensures Run(st, [c] + rest) == Run(FlushToken(st), rest)
  {
    assert ([c] + rest)[0] == c && ([c] + rest)[1..] == rest;
  }

  lemma {:induction false} ReadBlanks(out: seq<Statement>, stmt: Statement, s: string, rest: string)
    requires Blanks(s)
    ensures Run(Between(out, stmt), s + rest) == Run(Between(out, stmt), rest)
    decreases |s|
  {
    if s == "" {
      assert s + rest == rest;
    } else {
      assert s + rest == [s[0]] + (s[1..] + rest);
      ReadBlank(Between(out, stmt), s[0], s[1..] + rest);
      ReadBlanks(out, stmt, s[1..], rest);
    }
  }

  lemma ReadGap(st: State, s: string, rest: string)
    requires Open(st) && (st.tok != "" || st.quoted) && s != "" && Blanks(s)
    ensures Run(st, s + rest) == Run(Between(st.out, st.stmt + [st.tok]), rest)
  {
    assert s + rest == [s[0]] + (s[1..] + rest);
    ReadBlank(st, s[0], s[1..] + rest);
    ReadBlanks(st.out, st.stmt + [st.tok], s[1..], rest);
  }

  /** A word and the blanks after it. */
  datatype Spaced = Spaced(word: Word, gap: string)

  /** A statement as written: its words, the blanks between them, and the operator after it. */
  datatype Written = Written(words: seq<Spaced>, stop: string)

  predicate IsStop(s: string) {
    s == ";" || s == "\n" || s == "(" || s == ")" || s == "&&" || s == "||" || s == "&" || s == "|"
  }

  predicate WordsOk(words: seq<Spaced>) {
    && words != []
    && (forall i :: 0 <= i < |words| ==> WordOk(words[i].word) && Blanks(words[i].gap))
    && (forall i :: 0 <= i < |words| - 1 ==> words[i].gap != "")
  }

  /** A pipe right after a `>` would belong to the word. */
  predicate StopOk(w: Written) {
    && IsStop(w.stop)
    && (w.stop[0] == '|' && w.words != [] && w.words[|w.words| - 1].gap == "" ==>
          !EndsWithRedirect(TokenOf(w.words[|w.words| - 1].word)))
  }

  function WriteWords(words: seq<Spaced>, rest: string): string {
    if words == [] then rest else WriteWord(words[0].word, words[0].gap + WriteWords(words[1..], rest))
  }

  function TokensOf(words: seq<Spaced>): Statement {
    if words == [] then [] else [TokenOf(words[0].word)] + TokensOf(words[1..])
  }

  /** The state after a word and the blanks after it. */
  function AfterSpaced(out: seq<Statement>, stmt: Statement, w: Spaced): State {
    var st := AfterWord(Between(out, stmt), w.word);
    if w.gap == "" then st else FlushToken(st)
  }

  lemma ReadSpaced(out: seq<Statement>, stmt: Statement, w: Spaced, rest: string)
    requires WordOk(w.word) && Blanks(w.gap)
    ensures Run(Between(out, stmt), WriteWord(w.word, w.gap + rest)) == Run(AfterSpaced(out, stmt, w), rest)
  {
    var st := AfterWord(Between(out, stmt), w.word);
    ReadPieces(Between(out, stmt), w.word, w.gap + rest);
    AfterWordIs(Between(out, stmt), w.word);
    if w.gap != "" { ReadGap(st, w.gap, rest); } else { assert w.gap + rest == rest; }
  }

  /** Its token is the word's, flushed if blanks followed. */
  lemma AfterSpacedIs(out: seq<Statement>, stmt: Statement, w: Spaced)
    requires WordOk(w.word)
    ensures AtEnd(AfterSpaced(out, stmt, w), out, stmt + [TokenOf(w.word)], w)
    ensures w.gap != "" ==> AfterSpaced(out, stmt, w) == Between(out, stmt + [TokenOf(w.word)])
  {
    AfterWordIs(Between(out, stmt), w.word);
    assert "" + TokenOf(w.word) == TokenOf(w.word);
  }

  /** The last word has been read, and its token flushed if blanks followed it. */
  ghost predicate AtEnd(st: State, out: seq<Statement>, stmt: Statement, last: Spaced) {
    && Open(st) && st.out == out && FlushToken(st) == Between(out, stmt)
    && st.tok == if last.gap == "" then TokenOf(last.word) else ""
  }

  lemma WordsOkTail(words: seq<Spaced>)
    requires WordsOk(words)
    ensures WordOk(words[0].word) && Blanks(words[0].gap)
    ensures |words| > 1 ==> words[0].gap != "" && WordsOk(words[1..])
  {
  }

  lemma TokensOfCons(stmt: Statement, words: seq<Spaced>)
    requires words != []
    ensures (stmt + [TokenOf(words[0].word)]) + TokensOf(words[1..]) == stmt + TokensOf(words)
  {
  }

  function AfterWords(out: seq<Statement>, stmt: Statement, words: seq<Spaced>): State
    requires words != []
    decreases |words|
  {
    if |words| == 1 then AfterSpaced(out, stmt, words[0]) else AfterWords(out, stmt + [TokenOf(words[0].word)], words[1..])
  }

  lemma {:induction false} AfterWordsIs(out: seq<Statement>, stmt: Statement, words: seq<Spaced>)
    requires WordsOk(words)
    ensures AtEnd(AfterWords(out, stmt, words), out, stmt + TokensOf(words), words[|words| - 1])
    decreases |words|
  {
    WordsOkTail(words);
    TokensOfCons(stmt, words);
    if |words| == 1 {
      AfterSpacedIs(out, stmt, words[0]);
      assert stmt + [TokenOf(words[0].word)] == stmt + TokensOf(words);
    } else {
      AfterWordsIs(out, stmt + [TokenOf(words[0].word)], words[1..]);
    }
  }

  lemma {:induction false} ReadWords(out: seq<Statement>, stmt: Statement, words: seq<Spaced>, rest: string)
    requires WordsOk(words)
    ensures Run(Between(out, stmt), WriteWords(words, rest)) == Run(AfterWords(out, stmt, words), rest)
    decreases |words|
  {
    WordsOkTail(words);
    ReadSpaced(out, stmt, words[0], WriteWords(words[1..], rest));
    if |words| > 1 {
      AfterSpacedIs(out, stmt, words[0]);
      ReadWords(out, stmt + [TokenOf(words[0].word)], words[1..], rest);
    }
  }

  lemma FlushAtEnd(st: State, out: seq<Statement>, stmt: Statement, last: Spaced)
    requires AtEnd(st, out, stmt, last) && stmt != []
    ensures FlushStatement(st) == Between(out + [stmt], [])
  {
  }

  /** What follows an operator does not continue it. */
  predicate Fresh(rest: string) {
    rest == "" || (rest[0] != '&' && rest[0] != '|')
  }

  lemma ReadStop(st: State, out: seq<Statement>, stmt: Statement, last: Spaced, stop: string, rest: string)
    requires AtEnd(st, out, stmt, last) && stmt != [] && IsStop(stop) && Fresh(rest)
    requires stop[0] == '|' ==> !EndsWithRedirect(st.tok)
    ensures Run(st, stop + rest) == Run(Between(out + [stmt], []), rest)
  {
    FlushAtEnd(st, out, stmt, last);
    var s := stop + rest;
    assert s[0] == stop[0] && s[|stop|..] == rest;
    assert Step(st, s) == (|stop|, FlushStatement(st));
  }

  // --- whole lines ---

  predicate WrittenOk(w: Written) {
    WordsOk(w.words) && StopOk(w)
  }

  predicate AllOk(lines: seq<Written>) {
    forall i :: 0 <= i < |lines| ==> WrittenOk(lines[i])
  }

  lemma AllOkTail(lines: seq<Written>)
    requires AllOk(lines) && lines != []
    ensures WrittenOk(lines[0]) && AllOk(lines[1..])
  {
  }

  function WriteAll(lines: seq<Written>, rest: string): string {
    if lines == [] then rest else WriteWords(lines[0].words, lines[0].stop + WriteAll(lines[1..], rest))
  }

  function StatementsOf(lines: seq<Written>): seq<Statement> {
    if lines == [] then [] else [TokensOf(lines[0].words)] + StatementsOf(lines[1..])
  }

  lemma PieceIsFresh(p: Piece, rest: string)
    requires PieceOk(p)
    ensures Fresh(WritePiece(p, rest))
  {
    if p.Bare? { assert Plain(p.text[0]); }
  }

  lemma WordsAreFresh(words: seq<Spaced>, rest: string)
    requires WordsOk(words)
    ensures Fresh(WriteWords(words, rest))
  {
    var w, more := words[0].word, words[0].gap + WriteWords(words[1..], rest);
    assert WordOk(w) && PieceOk(w[0]);
    PieceIsFresh(w[0], WriteWord(w[1..], more));
  }

  lemma AllFresh(lines: seq<Written>, rest: string)
    requires AllOk(lines) && Fresh(rest)
    ensures Fresh(WriteAll(lines, rest))
  {
    if lines != [] {
      assert WrittenOk(lines[0]);
      WordsAreFresh(lines[0].words, lines[0].stop + WriteAll(lines[1..], rest));
    }
  }

  lemma ReadLine(out: seq<Statement>, w: Written, rest: string)
    requires WrittenOk(w) && Fresh(rest)
    ensures Run(Between(out, []), WriteWords(w.words, w.stop + rest)) == Run(Between(out + [TokensOf(w.words)], []), rest)
  {
    var st := AfterWords(out, [], w.words);
    ReadWords(out, [], w.words, w.stop + rest);
    AfterWordsIs(out, [], w.words);
    assert [] + TokensOf(w.words) == TokensOf(w.words);
    ReadStop(st, out, TokensOf(w.words), w.words[|w.words| - 1], w.stop, rest);
  }

  lemma StatementsOfCons(out: seq<Statement>, lines: seq<Written>)
    requires lines != []
    ensures (out + [TokensOf(lines[0].words)]) + StatementsOf(lines[1..]) == out + StatementsOf(lines)
  {
  }

  lemma {:induction false} ReadLines(out: seq<Statement>, lines: seq<Written>, rest: string)
    requires AllOk(lines) && Fresh(rest)
    ensures Run(Between(out, []), WriteAll(lines, rest)) == Run(Between(out + StatementsOf(lines), []), rest)
    decreases |lines|
  {
    if lines == [] {
      assert out + StatementsOf(lines) == out;
    } else {
      var next, more := out + [TokensOf(lines[0].words)], WriteAll(lines[1..], rest);
      AllOkTail(lines);
      AllFresh(lines[1..], rest);
      ReadLine(out, lines[0], more);
      ReadLines(next, lines[1..], rest);
      StatementsOfCons(out, lines);
    }
  }

  /** Splitting a line gives back its statements however they were written. */
  lemma SplitInvertsWriting(lead: string, lines: seq<Written>)
    requires Blanks(lead) && AllOk(lines)
    ensures SplitLine(lead + WriteAll(lines, "")) == StatementsOf(lines)
  {
    ReadBlanks([], [], lead, WriteAll(lines, ""));
    ReadLines([], lines, "");
    assert [] + StatementsOf(lines) == StatementsOf(lines);
  }

  lemma ReadLast(out: seq<Statement>, words: seq<Spaced>)
    requires WordsOk(words)
    ensures Run(Between(out, []), WriteWords(words, "")) == out + [TokensOf(words)]
  {
    var st := AfterWords(out, [], words);
    ReadWords(out, [], words, "");
    AfterWordsIs(out, [], words);
    assert [] + TokensOf(words) == TokensOf(words);
    FlushAtEnd(st, out, TokensOf(words), words[|words| - 1]);
  }

  /** The same when no operator follows the last statement. */
  lemma SplitInvertsWritingOpen(lead: string, lines: seq<Written>, last: seq<Spaced>)
    requires Blanks(lead) && AllOk(lines) && WordsOk(last)
    ensures SplitLine(lead + WriteAll(lines, WriteWords(last, ""))) == StatementsOf(lines) + [TokensOf(last)]
  {
    ReadBlanks([], [], lead, WriteAll(lines, WriteWords(last, "")));
    WordsAreFresh(last, "");
    ReadLines([], lines, WriteWords(last, ""));
    assert [] + StatementsOf(lines) == StatementsOf(lines);
    ReadLast(StatementsOf(lines), last);
  }
}
