/** Expanding `sh -c '<script>'` into the statements of the script. */
module ShellExpand {
  import opened Wrappers
  import opened Text
  import opened ShellSplit

  const CMD_PREFIXES: seq<string> := ["env", "sudo", "command", "nice", "time", "stdbuf", "nohup", "doas"]

  const SHELLS: seq<string> := ["sh", "bash", "zsh", "dash", "ksh"]

  predicate IsWordStart(c: char) { 'A' <= c <= 'Z' || 'a' <= c <= 'z' || c == '_' }

  predicate IsWordChar(c: char) { IsWordStart(c) || '0' <= c <= '9' }

  /** A name followed by an equals sign. */
  predicate IsEnvAssignment(w: string) {
    var eq := FirstIndex(w, c => c == '=');
    eq.Some? && eq.value > 0 && IsWordStart(w[0]) && forall i :: 0 <= i < eq.value ==> IsWordChar(w[i])
  }

  predicate IsCommandWord(w: string) {
    !IsEnvAssignment(w) && w !in CMD_PREFIXES
  }

  function FirstCommandWord(stmt: Statement): (r: Option<nat>)
    ensures r.Some? ==> r.value < |stmt| && IsCommandWord(stmt[r.value]) && forall i :: 0 <= i < r.value ==> !IsCommandWord(stmt[i])
    ensures r.None? ==> forall i :: 0 <= i < |stmt| ==> !IsCommandWord(stmt[i])
  {
    if stmt == [] then None
    else if IsCommandWord(stmt[0]) then Some(0)
    else
      var rest := FirstCommandWord(stmt[1..]);
      if rest.Some? then Some(rest.value + 1) else None
  }

  /** The components of a path that name something: no empty and no current-directory parts. */
  function Components(parts: seq<string>): (r: seq<string>)
    ensures forall i :: 0 <= i < |r| ==> r[i] != ""
  {
    if parts == [] then []
    else (if parts[0] == "" || parts[0] == "." then [] else [parts[0]]) + Components(parts[1..])
  }

  function FileName(path: string): (r: Option<string>)
    ensures r.Some? ==> r.value != ""
  {
    var parts := Components(Text.Split(path, '/'));
    if parts == [] || parts[|parts| - 1] == ".." then None else Some(parts[|parts| - 1])
  }

  /** `bundles_short`: a group of short flags containing `short`. `alnum` is the Unicode
      classifier of alphanumeric characters. */
  predicate BundlesShort(alnum: char -> bool, arg: string, short: char) {
    && |arg| > 1 && arg[0] == '-' && arg[1] != '-'
    && (forall i :: 1 <= i < |arg| ==> alnum(arg[i])) && short in arg[1..]
  }

  predicate IsScriptFlag(alnum: char -> bool, arg: string) {
    arg == "-c" || BundlesShort(alnum, arg, 'c')
  }

  function FirstScriptFlag(alnum: char -> bool, args: seq<string>): (r: Option<nat>)
    ensures r.Some? ==> r.value < |args| && IsScriptFlag(alnum, args[r.value])
    ensures r.Some? ==> forall i :: 0 <= i < r.value ==> !IsScriptFlag(alnum, args[i])
    ensures r.None? ==> forall i :: 0 <= i < |args| ==> !IsScriptFlag(alnum, args[i])
  {
    if args == [] then None
    else if IsScriptFlag(alnum, args[0]) then Some(0)
    else
      var rest := FirstScriptFlag(alnum, args[1..]);
      if rest.Some? then Some(rest.value + 1) else None
  }

  /** `shell_script`: the argument after the first `-c` of a shell. */
  function ShellScript(alnum: char -> bool, stmt: Statement): Option<string> {
    var at := FirstCommandWord(stmt);
    if at.None? then None
    else
      var name := FileName(stmt[at.value]);
      if name.None? || name.value !in SHELLS then None
      else
        var args := stmt[at.value + 1..];
        var flag := FirstScriptFlag(alnum, args);
        if flag.None? || flag.value + 1 >= |args| then None else Some(args[flag.value + 1])
  }

  lemma FlagIsLong(alnum: char -> bool, arg: string)
    requires IsScriptFlag(alnum, arg)
    ensures |arg| >= 2
  {
  }

  /** A script stands right after its flag. */
  lemma ScriptAfterFlag(alnum: char -> bool, stmt: Statement) returns (i: nat)
    requires ShellScript(alnum, stmt).Some?
    ensures i + 1 < |stmt| && IsScriptFlag(alnum, stmt[i]) && stmt[i + 1] == ShellScript(alnum, stmt).value
  {
    var at := FirstCommandWord(stmt).value;
    i := at + 1 + FirstScriptFlag(alnum, stmt[at + 1..]).value;
  }

  /** The flag before a script takes at least two characters of its own. */
  lemma ScriptIsShorter(alnum: char -> bool, stmt: Statement)
    requires ShellScript(alnum, stmt).Some?
    ensures |ShellScript(alnum, stmt).value| + 2 <= Total(stmt)
  {
    var i := ScriptAfterFlag(alnum, stmt);
    FlagIsLong(alnum, stmt[i]);
    TwoTokensWithin(stmt, i, i + 1);
  }

  /** `expanded_statements` */
  function Expanded(alnum: char -> bool, cmd: string): seq<Statement>
    decreases |cmd|, 1, 0
  {
    assert forall stmt :: stmt in SplitLine(cmd) ==> Total(stmt) <= |cmd| by {
      forall stmt | stmt in SplitLine(cmd) ensures Total(stmt) <= |cmd| { SplitBounded(cmd, stmt); }
    }
    ExpandAll(alnum, SplitLine(cmd), |cmd|)
  }

  function ExpandAll(alnum: char -> bool, stmts: seq<Statement>, bound: nat): seq<Statement>
    requires forall stmt :: stmt in stmts ==> Total(stmt) <= bound
    decreases bound, 0, |stmts|
  {
    if stmts == [] then []
    else
      var n := |stmts| - 1;
      var script := ShellScript(alnum, stmts[n]);
      ExpandAll(alnum, stmts[..n], bound) +
      if script.Some? then
        assert |script.value| < bound by { ScriptIsShorter(alnum, stmts[n]); }
        Expanded(alnum, script.value)
      else [stmts[n]]
  }

  /** `expanded_statements`, as the loop it is: it terminates because the script of a
      statement is shorter than the line the statement came from. */
  method ExpandStatements(alnum: char -> bool, cmd: string) returns (out: seq<Statement>)
    ensures out == Expanded(alnum, cmd)
    decreases |cmd|
  {
    var stmts := Statements(cmd);
    forall stmt | stmt in stmts ensures Total(stmt) <= |cmd| { SplitBounded(cmd, stmt); }
    out := [];
    for i := 0 to |stmts|
      invariant out == ExpandAll(alnum, stmts[..i], |cmd|)
    {
      var script := ShellScript(alnum, stmts[i]);
      assert stmts[..i + 1][..i] == stmts[..i];
      if script.Some? {
        ScriptIsShorter(alnum, stmts[i]);
        var inner := ExpandStatements(alnum, script.value);
        out := out + inner;
      } else {
        out := out + [stmts[i]];
      }
    }
    assert stmts[..|stmts|] == stmts;
  }

  // --- what expansion does ---

  /** After expansion no statement runs a script through `-c`. */
  lemma {:induction false} FullyExpanded(alnum: char -> bool, cmd: string, stmt: Statement)
    requires stmt in Expanded(alnum, cmd)
    ensures stmt != [] && ShellScript(alnum, stmt).None? && Total(stmt) <= |cmd|
    decreases |cmd|, 1, 0
  {
    forall s | s in SplitLine(cmd) ensures Total(s) <= |cmd| { SplitBounded(cmd, s); }
    FullyExpandedAll(alnum, cmd, SplitLine(cmd), stmt);
  }

  lemma {:induction false} FullyExpandedAll(alnum: char -> bool, cmd: string, stmts: seq<Statement>, stmt: Statement)
    requires forall s :: s in stmts ==> s in SplitLine(cmd)
    requires forall s :: s in stmts ==> Total(s) <= |cmd|
    requires stmt in ExpandAll(alnum, stmts, |cmd|)
    ensures stmt != [] && ShellScript(alnum, stmt).None? && Total(stmt) <= |cmd|
    decreases |cmd|, 0, |stmts|
  {
    var n := |stmts| - 1;
    var script := ShellScript(alnum, stmts[n]);
    if stmt in ExpandAll(alnum, stmts[..n], |cmd|) {
      FullyExpandedAll(alnum, cmd, stmts[..n], stmt);
    } else if script.Some? {
      ScriptIsShorter(alnum, stmts[n]);
      FullyExpanded(alnum, script.value, stmt);
    } else {
      SplitBounded(cmd, stmt);
    }
  }

  // --- wrapping a script ---

  /** A character that is taken into a token wherever it stands outside quotes. */
  predicate Plain(c: char) {
    && c != '\\' && c != '\'' && c != '"' && !EndsStatement(c) && c != '|' && c != '&' && !IsWhitespace(c)
  }

  lemma {:induction false} ReadWord(st: State, w: string, rest: string)
    requires !st.single && !st.double && forall i :: 0 <= i < |w| ==> Plain(w[i])
    ensures Run(st, w + rest) == Run(st.(tok := st.tok + w), rest)
    decreases |w|
  {
    if w == [] {
      assert w + rest == rest && st.tok + w == st.tok;
    } else {
      var s := w + rest;
      assert s[0] == w[0] && s[1..] == w[1..] + rest;
      ReadWord(Push(st, w[0]), w[1..], rest);
      assert (st.tok + [w[0]]) + w[1..] == st.tok + w;
    }
  }

  lemma ReadWordAndSpace(out: seq<Statement>, stmt: Statement, w: string, rest: string)
    requires w != "" && forall i :: 0 <= i < |w| ==> Plain(w[i])
    ensures Run(Between(out, stmt), w + (" " + rest)) == Run(Between(out, stmt + [w]), rest)
  {
    ReadWord(Between(out, stmt), w, " " + rest);
    assert "" + w == w && (" " + rest)[1..] == rest;
  }

  /** `<shell> -c '<script>'` */
  function Wrap(shell: string, script: string): string {
    shell + (" " + ("-c" + (" " + Quote(script, ""))))
  }

  lemma WrapSplits(shell: string, script: string)
    requires shell != "" && (forall i :: 0 <= i < |shell| ==> Plain(shell[i])) && QuoteFree(script)
    ensures SplitLine(Wrap(shell, script)) == [[shell, "-c", script]]
  {
    ReadWordAndSpace([], [], shell, "-c" + (" " + Quote(script, "")));
    ReadWordAndSpace([], [] + [shell], "-c", Quote(script, ""));
    ReadQuote(Between([], [shell] + ["-c"]), script, "");
    assert [] + [shell] == [shell] && ([shell] + ["-c"]) + [script] == [shell, "-c", script];
  }

  predicate IsShell(shell: string) {
    IsCommandWord(shell) && FileName(shell).Some? && FileName(shell).value in SHELLS
  }

  lemma WrapIsScript(alnum: char -> bool, shell: string, script: string)
    requires IsShell(shell)
    ensures ShellScript(alnum, [shell, "-c", script]) == Some(script)
  {
    var stmt := [shell, "-c", script];
    assert FirstCommandWord(stmt) == Some(0);
    assert stmt[1..] == ["-c", script];
    assert FirstScriptFlag(alnum, ["-c", script]) == Some(0);
  }

  /** Wrapping a script without single quotes in a shell leaves its expansion unchanged. */
  lemma WrappingIsTransparent(alnum: char -> bool, shell: string, script: string)
    requires IsShell(shell) && (forall i :: 0 <= i < |shell| ==> Plain(shell[i])) && QuoteFree(script)
    ensures Expanded(alnum, Wrap(shell, script)) == Expanded(alnum, script)
  {
    var cmd, stmt := Wrap(shell, script), [shell, "-c", script];
    WrapSplits(shell, script);
    WrapIsScript(alnum, shell, script);
    assert SplitLine(cmd)[0] == stmt;
    SplitBounded(cmd, stmt);
    assert [stmt][..0] == [];
    assert ExpandAll(alnum, [stmt], |cmd|) == [] + Expanded(alnum, script);
  }

  predicate LowerCase(w: string) {
    w != "" && forall i :: 0 <= i < |w| ==> 'a' <= w[i] <= 'z'
  }

  lemma LowerCaseName(w: string)
    requires LowerCase(w)
    ensures FileName(w) == Some(w) && !IsEnvAssignment(w) && forall i :: 0 <= i < |w| ==> Plain(w[i])
  {
    SplitWhole(w, '/');
    assert w[0] != '.';
    assert Components([w]) == [w];
  }

  lemma ListedShellsAreNames(shell: string)
    requires shell in SHELLS
    ensures LowerCase(shell) && shell !in CMD_PREFIXES
  {
    assert LowerCase("sh") && LowerCase("bash") && LowerCase("zsh") && LowerCase("dash") && LowerCase("ksh");
  }

  /** Every shell the table lists by its bare name can do the wrapping. */
  lemma ListedShellsWrap(alnum: char -> bool, shell: string, script: string)
    requires shell in SHELLS && QuoteFree(script)
    ensures Expanded(alnum, Wrap(shell, script)) == Expanded(alnum, script)
  {
    ListedShellsAreNames(shell);
    LowerCaseName(shell);
    WrappingIsTransparent(alnum, shell, script);
  }
}
