/** What the expansion of a command line consists of: every statement the line would run, in
    order, however deeply its scripts are nested. */
module ShellMeaning {
  import opened Wrappers
  import opened ShellSplit
  import opened ShellExpand

  // --- which statements come out ---

  /** Some statement of the line runs this script. */
  ghost predicate ScriptOf(alnum: char -> bool, line: string, script: string) {
    exists stmt :: stmt in SplitLine(line) && ShellScript(alnum, stmt) == Some(script)
  }

  /** Each line is a script of the one before. */
  ghost predicate Nested(alnum: char -> bool, lines: seq<string>) {
    lines != [] && forall i :: 0 <= i < |lines| - 1 ==> ScriptOf(alnum, lines[i], lines[i + 1])
  }

  /** The statement runs no script of its own and stands in the last of nested lines. */
  ghost predicate RunsAt(alnum: char -> bool, lines: seq<string>, stmt: Statement) {
    Nested(alnum, lines) && stmt in SplitLine(lines[|lines| - 1]) && ShellScript(alnum, stmt).None?
  }

  ghost predicate Runs(alnum: char -> bool, cmd: string, stmt: Statement) {
    exists lines :: RunsAt(alnum, lines, stmt) && lines[0] == cmd
  }

  lemma AllBounded(cmd: string)
    ensures forall stmt :: stmt in SplitLine(cmd) ==> Total(stmt) <= |cmd|
  {
    forall stmt | stmt in SplitLine(cmd) ensures Total(stmt) <= |cmd| { SplitBounded(cmd, stmt); }
  }

  /** What a statement turns into: itself, or the expansion of the script it runs. */
  ghost predicate TurnsInto(alnum: char -> bool, stmt: Statement, part: seq<Statement>) {
    match ShellScript(alnum, stmt)
    case None => part == [stmt]
    case Some(script) => part == Expanded(alnum, script)
  }

  function Joined(parts: seq<seq<Statement>>): seq<Statement> {
    if parts == [] then [] else Joined(parts[..|parts| - 1]) + parts[|parts| - 1]
  }

  lemma {:induction false} InJoined(parts: seq<seq<Statement>>, stmt: Statement)
    ensures stmt in Joined(parts) <==> exists i :: 0 <= i < |parts| && stmt in parts[i]
  {
    if parts != [] { InJoined(parts[..|parts| - 1], stmt); }
  }

  /** One part per statement, each what the statement turns into. */
  ghost predicate PartsOf(alnum: char -> bool, stmts: seq<Statement>, parts: seq<seq<Statement>>) {
    |parts| == |stmts| && forall i :: 0 <= i < |stmts| ==> TurnsInto(alnum, stmts[i], parts[i])
  }

  lemma LastPart(alnum: char -> bool, stmts: seq<Statement>, bound: nat) returns (part: seq<Statement>)
    requires stmts != [] && forall stmt :: stmt in stmts ==> Total(stmt) <= bound
    ensures TurnsInto(alnum, stmts[|stmts| - 1], part)
    ensures ExpandAll(alnum, stmts, bound) == ExpandAll(alnum, stmts[..|stmts| - 1], bound) + part
  {
    var init := ExpandAll(alnum, stmts[..|stmts| - 1], bound);
    part := ExpandAll(alnum, stmts, bound)[|init|..];
  }

  lemma JoinedSnoc(parts: seq<seq<Statement>>, part: seq<Statement>)
    ensures Joined(parts + [part]) == Joined(parts) + part
  {
    assert (parts + [part])[..|parts|] == parts;
  }

  lemma {:induction false} ExpandAllInOrder(alnum: char -> bool, stmts: seq<Statement>, bound: nat)
    returns (parts: seq<seq<Statement>>)
    requires forall stmt :: stmt in stmts ==> Total(stmt) <= bound
    ensures PartsOf(alnum, stmts, parts) && ExpandAll(alnum, stmts, bound) == Joined(parts)
    decreases |stmts|
  {
    if stmts == [] {
      parts := [];
    } else {
      var before := ExpandAllInOrder(alnum, stmts[..|stmts| - 1], bound);
      var part := LastPart(alnum, stmts, bound);
      JoinedSnoc(before, part);
      parts := before + [part];
    }
  }

  /** The expansion is, in line order, each statement of the line that runs no script, and the
      whole expansion of each script. */
  lemma ExpandedInOrder(alnum: char -> bool, cmd: string) returns (parts: seq<seq<Statement>>)
    ensures PartsOf(alnum, SplitLine(cmd), parts) && Expanded(alnum, cmd) == Joined(parts)
  {
    AllBounded(cmd);
    parts := ExpandAllInOrder(alnum, SplitLine(cmd), |cmd|);
  }

  /** The statement is one of those `source` turns into. */
  ghost predicate Yields(alnum: char -> bool, source: Statement, stmt: Statement) {
    match ShellScript(alnum, source)
    case None => stmt == source
    case Some(script) => stmt in Expanded(alnum, script)
  }

  /** Everything in the expansion comes from a statement of the line. */
  lemma ComesFrom(alnum: char -> bool, cmd: string, stmt: Statement) returns (source: Statement)
    requires stmt in Expanded(alnum, cmd)
    ensures source in SplitLine(cmd) && Yields(alnum, source, stmt)
  {
    var parts := ExpandedInOrder(alnum, cmd);
    InJoined(parts, stmt);
    var i :| 0 <= i < |parts| && stmt in parts[i];
    source := SplitLine(cmd)[i];
    assert TurnsInto(alnum, source, parts[i]);
  }

  /** And everything a statement of the line turns into is in the expansion. */
  lemma GoesInto(alnum: char -> bool, cmd: string, source: Statement, stmt: Statement)
    requires source in SplitLine(cmd) && Yields(alnum, source, stmt)
    ensures stmt in Expanded(alnum, cmd)
  {
    var parts := ExpandedInOrder(alnum, cmd);
    var i :| 0 <= i < |SplitLine(cmd)| && SplitLine(cmd)[i] == source;
    assert TurnsInto(alnum, source, parts[i]);
    InJoined(parts, stmt);
  }

  lemma NestedCons(alnum: char -> bool, cmd: string, lines: seq<string>)
    requires Nested(alnum, lines) && ScriptOf(alnum, cmd, lines[0])
    ensures Nested(alnum, [cmd] + lines)
  {
    var all := [cmd] + lines;
    forall i | 0 <= i < |all| - 1 ensures ScriptOf(alnum, all[i], all[i + 1]) {
      if i > 0 { assert ScriptOf(alnum, lines[i - 1], lines[i]); }
    }
  }

  lemma NestedTail(alnum: char -> bool, lines: seq<string>)
    requires Nested(alnum, lines) && |lines| > 1
    ensures Nested(alnum, lines[1..]) && ScriptOf(alnum, lines[0], lines[1])
  {
    var rest := lines[1..];
    forall i | 0 <= i < |rest| - 1 ensures ScriptOf(alnum, rest[i], rest[i + 1]) {
      assert ScriptOf(alnum, lines[i + 1], lines[i + 2]);
    }
  }

  lemma ScriptShortens(alnum: char -> bool, cmd: string, source: Statement)
    requires source in SplitLine(cmd) && ShellScript(alnum, source).Some?
    ensures |ShellScript(alnum, source).value| < |cmd|
  {
    SplitBounded(cmd, source);
    ScriptIsShorter(alnum, source);
  }

  lemma {:induction false} ExpandedRuns(alnum: char -> bool, cmd: string, stmt: Statement) returns (lines: seq<string>)
    requires stmt in Expanded(alnum, cmd)
    ensures RunsAt(alnum, lines, stmt) && lines[0] == cmd
    decreases |cmd|
  {
    var source := ComesFrom(alnum, cmd, stmt);
    if ShellScript(alnum, source).None? {
      lines := [cmd];
    } else {
      var script := ShellScript(alnum, source).value;
      ScriptShortens(alnum, cmd, source);
      var inner := ExpandedRuns(alnum, script, stmt);
      assert ScriptOf(alnum, cmd, script);
      NestedCons(alnum, cmd, inner);
      lines := [cmd] + inner;
    }
  }

  lemma {:induction false} RunsExpanded(alnum: char -> bool, lines: seq<string>, stmt: Statement)
    requires RunsAt(alnum, lines, stmt)
    ensures stmt in Expanded(alnum, lines[0])
    decreases |lines|
  {
    if |lines| == 1 {
      GoesInto(alnum, lines[0], stmt, stmt);
    } else {
      NestedTail(alnum, lines);
      var source :| source in SplitLine(lines[0]) && ShellScript(alnum, source) == Some(lines[1]);
      RunsExpanded(alnum, lines[1..], stmt);
      GoesInto(alnum, lines[0], source, stmt);
    }
  }

  /** A statement is in the expansion if and only if it stands in the line, or in a script
      nested in it to any depth, and runs no script itself. */
  lemma ExpandedIff(alnum: char -> bool, cmd: string, stmt: Statement)
    ensures stmt in Expanded(alnum, cmd) <==> Runs(alnum, cmd, stmt)
  {
    if stmt in Expanded(alnum, cmd) { var lines := ExpandedRuns(alnum, cmd, stmt); }
    if Runs(alnum, cmd, stmt) {
      var lines :| RunsAt(alnum, lines, stmt) && lines[0] == cmd;
      RunsExpanded(alnum, lines, stmt);
    }
  }
}
