/** Splitting a command line into statements of tokens, quotes removed. */
module ShellSplit {
  import opened Text

  type Statement = seq<string>

  /** Where the splitter stands: finished statements, the current one, the current token, and
      whether the token had a quote and lies within one. */
  datatype State = State(out: seq<Statement>, stmt: Statement, tok: string, quoted: bool, single: bool, double: bool)

  const START := State([], [], "", false, false, false)

  function FlushToken(st: State): State {
    st.(stmt := if st.tok != "" || st.quoted then st.stmt + [st.tok] else st.stmt, tok := "", quoted := false)
  }

  function FlushStatement(st: State): State {
    var f := FlushToken(st);
    if f.stmt == [] then f else f.(out := f.out + [f.stmt], stmt := [])
  }

  function Push(st: State, c: char): State {
    st.(tok := st.tok + [c])
  }

  predicate EndsStatement(c: char) {
    c == ';' || c == '\n' || c == '(' || c == ')'
  }

  predicate EndsWithRedirect(tok: string) {
    tok != [] && tok[|tok| - 1] == '>'
  }

  /** One turn of the loop: the characters it consumes and the state it leaves. */
  function Step(st: State, s: string): (nat, State)
    requires s != []
  {
    var c := s[0];
    if c == '\\' && !st.single then
      if |s| > 1 then (2, Push(st, s[1])) else (1, st)
    else if c == '\'' && !st.double then (1, st.(single := !st.single, quoted := true))
    else if c == '"' && !st.single then (1, st.(double := !st.double, quoted := true))
    else if st.single || st.double then (1, Push(st, c))
    else if EndsStatement(c) then (1, FlushStatement(st))
    else if c == '|' && EndsWithRedirect(st.tok) then (1, Push(st, c))
    else if c == '&' || c == '|' then (if |s| > 1 && s[1] == c then 2 else 1, FlushStatement(st))
    else if IsWhitespace(c) then (1, FlushToken(st))
    else (1, Push(st, c))
  }

  lemma StepConsumes(st: State, s: string)
    requires s != []
    ensures 1 <= Step(st, s).0 <= |s|
  {
  }

  /** The statements of the rest of the line. */
  function Run(st: State, s: string): seq<Statement>
    decreases |s|
  {
    if s == [] then FlushStatement(st).out
    else
      var (n, next) := Step(st, s);
      StepConsumes(st, s);
      Run(next, s[n..])
  }

  function SplitLine(cmd: string): seq<Statement> {
    Run(START, cmd)
  }

  // --- nothing is made up ---

  function Total(stmt: Statement): nat {
    if stmt == [] then 0 else Total(stmt[..|stmt| - 1]) + |stmt[|stmt| - 1]|
  }

  function TotalAll(out: seq<Statement>): nat {
    if out == [] then 0 else TotalAll(out[..|out| - 1]) + Total(out[|out| - 1])
  }

  function Size(st: State): nat {
    TotalAll(st.out) + Total(st.stmt) + |st.tok|
  }

  lemma TotalSnoc(stmt: Statement, tok: string)
    ensures Total(stmt + [tok]) == Total(stmt) + |tok|
  {
    assert (stmt + [tok])[..|stmt|] == stmt;
  }

  lemma TotalAllSnoc(out: seq<Statement>, stmt: Statement)
    ensures TotalAll(out + [stmt]) == TotalAll(out) + Total(stmt)
  {
    assert (out + [stmt])[..|out|] == out;
  }

  ghost predicate NoneEmpty(out: seq<Statement>) {
    forall i :: 0 <= i < |out| ==> out[i] != []
  }

  lemma FlushTokenSize(st: State)
    ensures Size(FlushToken(st)) == Size(st)
  {
    TotalSnoc(st.stmt, st.tok);
  }

  lemma FlushStatementSize(st: State)
    ensures Size(FlushStatement(st)) == Size(st) == TotalAll(FlushStatement(st).out)
  {
    var f := FlushToken(st);
    FlushTokenSize(st);
    if f.stmt != [] {
      TotalAllSnoc(f.out, f.stmt);
      assert FlushStatement(st) == State(f.out + [f.stmt], [], "", false, st.single, st.double);
    }
  }

  lemma FlushNoneEmpty(st: State)
    requires NoneEmpty(st.out)
    ensures NoneEmpty(FlushStatement(st).out)
  {
  }

  /** What one turn can do to the state. */
  lemma StepCases(st: State, s: string)
    requires s != []
    ensures
      var next := Step(st, s).1;
      || next == FlushToken(st)
      || next == FlushStatement(st)
      || (next.out == st.out && next.stmt == st.stmt && |next.tok| <= |st.tok| + 1)
  {
  }

  lemma StepGrows(st: State, s: string)
    requires s != []
    ensures Size(Step(st, s).1) <= Size(st) + Step(st, s).0
    ensures NoneEmpty(st.out) ==> NoneEmpty(Step(st, s).1.out)
  {
    StepCases(st, s);
    StepConsumes(st, s);
    FlushTokenSize(st);
    FlushStatementSize(st);
    if NoneEmpty(st.out) { FlushNoneEmpty(st); }
  }

  /** Together the tokens are no longer than the line, and no statement is empty. */
  lemma {:induction false} RunBounded(st: State, s: string)
    requires NoneEmpty(st.out)
    ensures TotalAll(Run(st, s)) <= Size(st) + |s| && NoneEmpty(Run(st, s))
    decreases |s|
  {
    if s == [] {
      FlushStatementSize(st);
      FlushNoneEmpty(st);
    } else {
      var (n, next) := Step(st, s);
      StepConsumes(st, s);
      StepGrows(st, s);
      RunBounded(next, s[n..]);
    }
  }

  lemma {:induction false} StatementWithin(out: seq<Statement>, stmt: Statement)
    requires stmt in out
    ensures Total(stmt) <= TotalAll(out)
  {
    var n := |out| - 1;
    if stmt != out[n] {
      assert out == out[..n] + [out[n]];
      StatementWithin(out[..n], stmt);
    }
  }

  /** The tokens of one statement are together no longer than the line it came from. */
  lemma SplitBounded(cmd: string, stmt: Statement)
    requires stmt in SplitLine(cmd)
    ensures stmt != [] && Total(stmt) <= |cmd|
  {
    RunBounded(START, cmd);
    StatementWithin(SplitLine(cmd), stmt);
    var i :| 0 <= i < |SplitLine(cmd)| && SplitLine(cmd)[i] == stmt;
  }

  lemma {:induction false} TokenWithin(stmt: Statement, i: int)
    requires 0 <= i < |stmt|
    ensures |stmt[i]| <= Total(stmt)
  {
    if i < |stmt| - 1 { TokenWithin(stmt[..|stmt| - 1], i); }
  }

  lemma {:induction false} TwoTokensWithin(stmt: Statement, i: int, j: int)
    requires 0 <= i < j < |stmt|
    ensures |stmt[i]| + |stmt[j]| <= Total(stmt)
  {
    var init := stmt[..|stmt| - 1];
    if j < |stmt| - 1 { TwoTokensWithin(init, i, j); } else { TokenWithin(init, i); }
  }

  // --- the loop ---

  lemma StepRuns(st: State, cmd: string, i: nat, next: State, n: nat)
    requires i < |cmd| && Step(st, cmd[i..]) == (n, next)
    ensures i + n <= |cmd| && Run(next, cmd[i + n..]) == Run(st, cmd[i..])
  {
    StepConsumes(st, cmd[i..]);
    assert cmd[i..][n..] == cmd[i + n..];
  }

  /** `flush_tok` */
  method FlushTok(tok: string, stmt: Statement, quoted: bool) returns (flushed: Statement)
    ensures flushed == FlushToken(State([], stmt, tok, quoted, false, false)).stmt
  {
    flushed := stmt;
    if tok != "" || quoted { flushed := flushed + [tok]; }
  }

  /** A flushed token and, unless it is empty, its statement. */
  method EndStatement(out: seq<Statement>, stmt: Statement, tok: string, quoted: bool) returns (ended: seq<Statement>)
    ensures ended == FlushStatement(State(out, stmt, tok, quoted, false, false)).out
  {
    var flushed := FlushTok(tok, stmt, quoted);
    ended := out;
    if flushed != [] { ended := ended + [flushed]; }
  }

  /** `statements`: what the character loop collects is what the splitting rule gives; no
      statement is empty and the tokens are together no longer than the line. */
  method Statements(cmd: string) returns (out: seq<Statement>)
    ensures out == SplitLine(cmd)
    ensures NoneEmpty(out) && TotalAll(out) <= |cmd|
  {
    var stmt: Statement, tok: string := [], "";
    var quoted, single, double := false, false, false;
    out := [];
    var i := 0;
    assert cmd[0..] == cmd;
    while i < |cmd|
      invariant 0 <= i <= |cmd| && Run(State(out, stmt, tok, quoted, single, double), cmd[i..]) == SplitLine(cmd)
      decreases |cmd| - i
    {
      ghost var before, start := State(out, stmt, tok, quoted, single, double), i;
      var c := cmd[i];
      i := i + 1;
      if c == '\\' && !single {
        if i < |cmd| {
          tok := tok + [cmd[i]];
          i := i + 1;
        }
      } else if c == '\'' && !double {
        single, quoted := !single, true;
      } else if c == '"' && !single {
        double, quoted := !double, true;
      } else if single || double {
        tok := tok + [c];
      } else if c == ';' || c == '\n' || c == '(' || c == ')' {
        out := EndStatement(out, stmt, tok, quoted);
        stmt, tok, quoted := [], "", false;
      } else if c == '|' && EndsWithRedirect(tok) {
        tok := tok + [c];
      } else if c == '&' || c == '|' {
        if i < |cmd| && cmd[i] == c { i := i + 1; }
        out := EndStatement(out, stmt, tok, quoted);
        stmt, tok, quoted := [], "", false;
      } else if IsWhitespace(c) {
        stmt := FlushTok(tok, stmt, quoted);
        tok, quoted := "", false;
      } else {
        tok := tok + [c];
      }
      StepRuns(before, cmd, start, State(out, stmt, tok, quoted, single, double), i - start);
    }
    out := EndStatement(out, stmt, tok, quoted);
    RunBounded(START, cmd);
  }

  // --- quoting ---

  predicate QuoteFree(s: string) {
    '\'' !in s
  }

  /** Between single quotes everything is taken literally. */
  lemma {:induction false} ReadQuoted(st: State, w: string, rest: string)
    requires st.single && !st.double && QuoteFree(w)
    ensures Run(st, w + rest) == Run(st.(tok := st.tok + w), rest)
    decreases |w|
  {
    if w == [] {
      assert w + rest == rest && st.tok + w == st.tok;
    } else {
      var s := w + rest;
      assert s[0] == w[0] && s[1..] == w[1..] + rest;
      assert w[0] in w && QuoteFree(w[1..]);
      ReadQuoted(Push(st, w[0]), w[1..], rest);
      assert (st.tok + [w[0]]) + w[1..] == st.tok + w;
    }
  }

  /** A token between single quotes, and what follows it. */
  function Quote(w: string, rest: string): string {
    "'" + (w + ("'" + rest))
  }

  lemma ReadQuote(st: State, w: string, rest: string)
    requires !st.single && !st.double && st.tok == "" && QuoteFree(w)
    ensures Run(st, Quote(w, rest)) == Run(st.(tok := w, quoted := true), rest)
  {
    var s := Quote(w, rest);
    assert s[0] == '\'' && s[1..] == w + ("'" + rest);
    ReadQuoted(st.(single := true, quoted := true), w, "'" + rest);
    assert st.tok + w == w && ("'" + rest)[1..] == rest;
  }

  /** The tokens of a statement, quoted and separated by spaces, and what follows them. */
  function QuoteStatement(stmt: Statement, rest: string): string
    requires stmt != []
  {
    Quote(stmt[0], if |stmt| == 1 then rest else " " + QuoteStatement(stmt[1..], rest))
  }

  /** Quoted statements, each ended by a semicolon. */
  function QuoteAll(stmts: seq<Statement>): string
    requires NoneEmpty(stmts)
  {
    if stmts == [] then "" else QuoteStatement(stmts[0], ";" + QuoteAll(stmts[1..]))
  }

  ghost predicate QuoteFreeStatement(stmt: Statement) {
    forall i :: 0 <= i < |stmt| ==> QuoteFree(stmt[i])
  }

  /** Between statements, or between tokens of one. */
  function Between(out: seq<Statement>, stmt: Statement): State {
    State(out, stmt, "", false, false, false)
  }

  lemma SpaceCloses(out: seq<Statement>, stmt: Statement, w: string, rest: string)
    ensures Run(State(out, stmt, w, true, false, false), " " + rest) == Run(Between(out, stmt + [w]), rest)
  {
    assert (" " + rest)[1..] == rest;
  }

  lemma SemicolonCloses(out: seq<Statement>, stmt: Statement, w: string, rest: string)
    ensures Run(State(out, stmt, w, true, false, false), ";" + rest) == Run(Between(out + [stmt + [w]], []), rest)
  {
    assert (";" + rest)[1..] == rest;
  }

  lemma {:induction false} ReadStatement(out: seq<Statement>, done: Statement, stmt: Statement, rest: string)
    requires stmt != [] && QuoteFreeStatement(stmt)
    ensures Run(Between(out, done), QuoteStatement(stmt, ";" + rest)) == Run(Between(out + [done + stmt], []), rest)
    decreases |stmt|
  {
    if |stmt| == 1 {
      ReadQuote(Between(out, done), stmt[0], ";" + rest);
      SemicolonCloses(out, done, stmt[0], rest);
      assert stmt == [stmt[0]];
    } else {
      var tail := QuoteStatement(stmt[1..], ";" + rest);
      ReadQuote(Between(out, done), stmt[0], " " + tail);
      SpaceCloses(out, done, stmt[0], tail);
      ReadStatement(out, done + [stmt[0]], stmt[1..], rest);
      assert (done + [stmt[0]]) + stmt[1..] == done + stmt;
    }
  }

  lemma {:induction false} ReadAll(out: seq<Statement>, stmts: seq<Statement>)
    requires NoneEmpty(stmts) && forall i :: 0 <= i < |stmts| ==> QuoteFreeStatement(stmts[i])
    ensures Run(Between(out, []), QuoteAll(stmts)) == out + stmts
    decreases |stmts|
  {
    if stmts != [] {
      ReadStatement(out, [], stmts[0], QuoteAll(stmts[1..]));
      assert [] + stmts[0] == stmts[0];
      ReadAll(out + [stmts[0]], stmts[1..]);
      assert (out + [stmts[0]]) + stmts[1..] == out + stmts;
    }
  }

  /** Splitting undoes single-quoting, for any list of statements without single quotes. */
  lemma SplitInvertsQuoting(stmts: seq<Statement>)
    requires NoneEmpty(stmts) && forall i :: 0 <= i < |stmts| ==> QuoteFreeStatement(stmts[i])
    ensures SplitLine(QuoteAll(stmts)) == stmts
  {
    ReadAll([], stmts);
    assert [] + stmts == stmts;
  }
}
