/** How a version string is read: runs of digits and runs of letters, cut at separators and
    wherever one kind meets the other. */
module VersionReading {
  import opened Wrappers
  import opened Versions

  /** A run of one kind, and the separators after it. */
  datatype Piece = Piece(run: string, gap: string)

  predicate AllLetters(s: string) {
    forall i :: 0 <= i < |s| ==> 'a' <= s[i] <= 'z' || 'A' <= s[i] <= 'Z'
  }

  predicate Separators(s: string) {
    forall i :: 0 <= i < |s| ==> s[i] == '.' || s[i] == '-' || s[i] == '_' || s[i] == '+'
  }

  predicate PieceOk(p: Piece) {
    p.run != "" && (AllDigits(p.run) || AllLetters(p.run)) && Separators(p.gap)
  }

  /** Neighbouring runs have a separator between them or are of different kinds. */
  predicate Parted(ps: seq<Piece>, i: int) {
    0 <= i < |ps| - 1 ==> ps[i].gap != "" || AllDigits(ps[i].run) != AllDigits(ps[i + 1].run)
  }

  ghost predicate PiecesOk(ps: seq<Piece>) {
    (forall i :: 0 <= i < |ps| ==> PieceOk(ps[i])) && forall i :: Parted(ps, i)
  }

  function Write(ps: seq<Piece>): string {
    if ps == [] then "" else ps[0].run + (ps[0].gap + Write(ps[1..]))
  }

  function Lowered(s: string): string {
    seq(|s|, i requires 0 <= i < |s| => if 'A' <= s[i] <= 'Z' then (s[i] as int + 32) as char else s[i])
  }

  /** The segment a run stands for: digits by value, letters without regard to case. */
  function Segment(p: Piece): Token {
    if AllDigits(p.run) then Number(Value(p.run)) else Text(Lowered(p.run))
  }

  function Segments(ps: seq<Piece>): seq<Token> {
    if ps == [] then [] else [Segment(ps[0])] + Segments(ps[1..])
  }

  predicate FitsU64(p: Piece) {
    AllDigits(p.run) ==> Value(p.run) < 0x1_0000_0000_0000_0000
  }

  predicate AllFit(ps: seq<Piece>) {
    forall i :: 0 <= i < |ps| ==> FitsU64(ps[i])
  }

  // --- reading what was written ---

  lemma LoweredSnoc(s: string, c: char)
    ensures Lowered(s + [c]) == Lowered(s) + [LowerChar(c)]
  {
  }

  lemma LoweredDigits(s: string)
    requires AllDigits(s)
    ensures Lowered(s) == s
  {
  }

  predicate OfKind(s: string, digit: bool) {
    if digit then AllDigits(s) else AllLetters(s)
  }

  lemma RunLowered(done: string, digit: bool)
    requires OfKind(done, digit)
    ensures RunOk(Lowered(done), Some(digit))
  {
    if digit { LoweredDigits(done); }
  }

  lemma {:induction false} ReadOn(done: string, more: string, digit: bool, rest: string)
    requires OfKind(done, digit) && OfKind(more, digit)
    ensures RunOk(Lowered(done), Some(digit)) && RunOk(Lowered(done + more), Some(digit))
    ensures TokensFrom(more + rest, Lowered(done), Some(digit)) == TokensFrom(rest, Lowered(done + more), Some(digit))
    decreases |more|
  {
    RunLowered(done, digit);
    RunLowered(done + more, digit);
    if more == "" {
      assert more + rest == rest && done + more == done;
    } else {
      var s, c := more + rest, more[0];
      assert s[0] == c && s[1..] == more[1..] + rest;
      assert OfKind(done + [c], digit) && OfKind(more[1..], digit);
      LoweredSnoc(done, c);
      ReadOn(done + [c], more[1..], digit, rest);
      assert (done + [c]) + more[1..] == done + more;
    }
  }

  /** What follows a run does not go on with it. */
  predicate Ends(digit: bool, rest: string) {
    rest == "" || IsSeparator(rest[0]) || (IsDigit(rest[0]) && !digit) || (IsLetter(rest[0]) && digit)
  }

  function Then(done: Result<seq<Token>, VersionError>, rest: Result<seq<Token>, VersionError>): Result<seq<Token>, VersionError> {
    if done.Err? then done else Prepend(done.value, rest)
  }

  lemma FlushAhead(run: string, digit: bool, rest: string)
    requires RunOk(run, Some(digit)) && Ends(digit, rest)
    ensures TokensFrom(rest, run, Some(digit)) == Then(Flush(run, Some(digit)), TokensFrom(rest, [], None))
  {
    var done := Flush(run, Some(digit));
    if done.Ok? {
      assert done.value + [] == done.value;
      if rest != "" && IsSeparator(rest[0]) { PrependTwice(done.value, [], TokensFrom(rest[1..], [], None)); }
    }
    if rest != "" { assert [] + [LowerChar(rest[0])] == [LowerChar(rest[0])]; }
  }

  lemma {:induction false} SkipGap(gap: string, rest: string)
    requires Separators(gap)
    ensures TokensFrom(gap + rest, [], None) == TokensFrom(rest, [], None)
    decreases |gap|
  {
    if gap == "" {
      assert gap + rest == rest;
    } else {
      assert (gap + rest)[0] == gap[0] && (gap + rest)[1..] == gap[1..] + rest;
      SkipGap(gap[1..], rest);
      var r := TokensFrom(rest, [], None);
      if r.Ok? { assert [] + r.value == r.value; }
    }
  }

  lemma ReadRun(run: string, digit: bool, after: string)
    requires run != "" && OfKind(run, digit)
    ensures RunOk(Lowered(run), Some(digit))
    ensures TokensFrom(run + after, [], None) == TokensFrom(after, Lowered(run), Some(digit))
  {
    var first := [run[0]];
    assert OfKind(first, digit) && OfKind(run[1..], digit) && IsDigit(run[0]) == digit;
    assert (run + after)[0] == run[0] && (run + after)[1..] == run[1..] + after;
    assert Lowered(first) == [LowerChar(run[0])] && [] + [LowerChar(run[0])] == Lowered(first);
    ReadOn(first, run[1..], digit, after);
    assert first + run[1..] == run;
  }

  lemma ReadPiece(p: Piece, rest: string)
    requires PieceOk(p) && Ends(AllDigits(p.run), p.gap + rest)
    ensures TokensFrom(p.run + (p.gap + rest), [], None) ==
      if FitsU64(p) then Prepend([Segment(p)], TokensFrom(rest, [], None)) else Err(Overflow)
  {
    var digit, run, after := AllDigits(p.run), p.run, p.gap + rest;
    ReadRun(run, digit, after);
    FlushAhead(Lowered(run), digit, after);
    SkipGap(p.gap, rest);
    if digit { LoweredDigits(run); }
  }

  lemma EndsBefore(ps: seq<Piece>)
    requires PiecesOk(ps) && ps != []
    ensures Ends(AllDigits(ps[0].run), ps[0].gap + Write(ps[1..])) && PieceOk(ps[0]) && PiecesOk(ps[1..])
  {
    var rest := ps[1..];
    assert PieceOk(ps[0]);
    forall i | 0 <= i < |rest| ensures PieceOk(rest[i]) { assert PieceOk(ps[i + 1]); }
    forall i ensures Parted(rest, i) { assert Parted(ps, i + 1); }
    assert Parted(ps, 0);
    if ps[0].gap == "" && rest != [] {
      assert PieceOk(rest[0]) && Write(rest)[0] == rest[0].run[0];
      assert IsDigit(rest[0].run[0]) || IsLetter(rest[0].run[0]);
    }
  }

  lemma {:induction false} ReadPieces(ps: seq<Piece>)
    requires PiecesOk(ps)
    ensures TokensFrom(Write(ps), [], None) == if AllFit(ps) then Ok(Segments(ps)) else Err(Overflow)
  {
    if ps != [] {
      EndsBefore(ps);
      ReadPiece(ps[0], Write(ps[1..]));
      ReadPieces(ps[1..]);
      assert AllFit(ps) <==> FitsU64(ps[0]) && AllFit(ps[1..]) by {
        assert forall i :: 0 < i < |ps| ==> ps[i] == ps[1..][i - 1];
        if AllFit(ps) { forall i | 0 <= i < |ps[1..]| ensures FitsU64(ps[1..][i]) { assert FitsU64(ps[i + 1]); } }
      }
    }
  }

  /** A version is written as these pieces after leading separators. */
  ghost predicate WrittenAs(value: string, lead: string, ps: seq<Piece>) {
    Separators(lead) && PiecesOk(ps) && value == lead + Write(ps)
  }

  lemma WrittenIsExact(value: string, lead: string, ps: seq<Piece>)
    requires WrittenAs(value, lead, ps) && ps != []
    ensures value != "" && value != "*" && value != "-"
  {
    assert PieceOk(ps[0]);
    var c := ps[0].run[0];
    assert value[|lead|] == c && (IsDigit(c) || IsLetter(c));
  }

  /** Reading gives back the segments a version was written with, unless one overflows. */
  lemma ReadsWritten(value: string, lead: string, ps: seq<Piece>)
    requires WrittenAs(value, lead, ps) && ps != []
    ensures Tokens(value) == if AllFit(ps) then Ok(Segments(ps)) else Err(Overflow)
  {
    WrittenIsExact(value, lead, ps);
    SkipGap(lead, Write(ps));
    ReadPieces(ps);
  }

  // --- every version that is read was written so ---

  predicate Legible(s: string) {
    forall i :: 0 <= i < |s| ==> IsDigit(s[i]) || IsLetter(s[i]) || IsSeparator(s[i])
  }

  lemma {:induction false} ReadIsLegible(s: string, run: string, digit: Option<bool>)
    requires RunOk(run, digit) && TokensFrom(s, run, digit).Ok?
    ensures Legible(s)
    decreases |s|
  {
    if s != "" {
      var c := s[0];
      if IsDigit(c) || IsLetter(c) {
        if digit.None? || digit.value == IsDigit(c) {
          ReadIsLegible(s[1..], run + [LowerChar(c)], Some(IsDigit(c)));
        } else {
          ReadIsLegible(s[1..], [LowerChar(c)], Some(IsDigit(c)));
        }
      } else {
        ReadIsLegible(s[1..], [], None);
      }
      assert s == [c] + s[1..];
    }
  }

  lemma {:induction false} Decompose(s: string) returns (lead: string, ps: seq<Piece>)
    requires Legible(s)
    ensures WrittenAs(s, lead, ps)
  {
    if s == "" {
      lead, ps := "", [];
    } else {
      var c := s[0];
      var lead', ps' := Decompose(s[1..]);
      assert s == [c] + s[1..];
      if IsSeparator(c) {
        lead, ps := [c] + lead', ps';
        assert s == lead + Write(ps);
      } else if lead' == "" && ps' != [] && AllDigits(ps'[0].run) == IsDigit(c) {
        lead, ps := "", Grow(c, ps');
        GrowOk(c, ps');
      } else {
        lead, ps := "", [Piece([c], lead')] + ps';
        StartOk(c, lead', ps');
      }
    }
  }

  /** One more character in front of the first run. */
  function Grow(c: char, ps: seq<Piece>): seq<Piece>
    requires ps != []
  {
    [Piece([c] + ps[0].run, ps[0].gap)] + ps[1..]
  }

  lemma GrownRun(c: char, run: string)
    requires run != "" && (AllDigits(run) || AllLetters(run)) && (IsDigit(c) || IsLetter(c)) && AllDigits(run) == IsDigit(c)
    ensures AllDigits([c] + run) || AllLetters([c] + run)
    ensures AllDigits([c] + run) == AllDigits(run)
  {
    var grown := [c] + run;
    assert grown[0] == c && forall i :: 0 < i < |grown| ==> grown[i] == run[i - 1];
    if IsDigit(c) { assert AllDigits(grown); } else { assert IsLetter(c) && AllLetters(run) && AllLetters(grown); }
  }

  lemma ReplaceFirst(p: Piece, q: Piece, rest: seq<Piece>)
    requires PiecesOk([p] + rest) && PieceOk(q) && q.gap == p.gap && AllDigits(q.run) == AllDigits(p.run)
    ensures PiecesOk([q] + rest)
  {
    var ps, qs := [p] + rest, [q] + rest;
    forall i | 0 <= i < |qs| ensures PieceOk(qs[i]) { if i > 0 { assert qs[i] == ps[i]; } }
    forall i ensures Parted(qs, i) { assert Parted(ps, i); }
  }

  lemma Regroup(a: string, b: string, c: string)
    ensures (a + b) + c == a + (b + c)
  {
  }

  lemma GrowWrites(c: char, ps: seq<Piece>)
    requires ps != []
    ensures Write(Grow(c, ps)) == [c] + Write(ps)
  {
    assert Grow(c, ps)[1..] == ps[1..];
    Regroup([c], ps[0].run, ps[0].gap + Write(ps[1..]));
  }

  lemma GrowOk(c: char, ps: seq<Piece>)
    requires ps != [] && PiecesOk(ps) && (IsDigit(c) || IsLetter(c)) && AllDigits(ps[0].run) == IsDigit(c)
    ensures PiecesOk(Grow(c, ps)) && Write(Grow(c, ps)) == [c] + Write(ps)
  {
    var q := Piece([c] + ps[0].run, ps[0].gap);
    GrownRun(c, ps[0].run);
    assert ps == [ps[0]] + ps[1..];
    ReplaceFirst(ps[0], q, ps[1..]);
    GrowWrites(c, ps);
  }

  lemma StartOk(c: char, lead: string, ps: seq<Piece>)
    requires PiecesOk(ps) && Separators(lead) && (IsDigit(c) || IsLetter(c))
    requires lead == "" && ps != [] ==> AllDigits(ps[0].run) != IsDigit(c)
    ensures var qs := [Piece([c], lead)] + ps; PiecesOk(qs) && Write(qs) == [c] + (lead + Write(ps))
  {
    var qs := [Piece([c], lead)] + ps;
    assert AllDigits([c]) == IsDigit(c) by { assert [c][0] == c; }
    forall i | 0 <= i < |qs| ensures PieceOk(qs[i]) { if i > 0 { assert PieceOk(ps[i - 1]); } }
    forall i ensures Parted(qs, i) { if i > 0 { assert Parted(ps, i - 1); } }
    assert qs[1..] == ps;
  }

  /** A version is read as these segments if and only if it can be written as runs that stand
      for them and fit in 64 bits. */
  lemma TokensIff(value: string, tokens: seq<Token>)
    ensures Tokens(value) == Ok(tokens) <==>
      exists lead, ps :: WrittenAs(value, lead, ps) && ps != [] && AllFit(ps) && tokens == Segments(ps)
  {
    if Tokens(value) == Ok(tokens) {
      ReadIsLegible(value, [], None);
      var lead, ps := Decompose(value);
      SkipGap(lead, Write(ps));
      ReadPieces(ps);
      assert WrittenAs(value, lead, ps) && ps != [];
    }
    if lead, ps :| WrittenAs(value, lead, ps) && ps != [] && AllFit(ps) && tokens == Segments(ps) {
      ReadsWritten(value, lead, ps);
    }
  }
}
