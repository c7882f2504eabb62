/** Which statements run a script, in terms of the words they consist of. */
module ShellScripts {
  import opened Wrappers
  import opened Text
  import opened ShellSplit
  import opened ShellExpand

  // --- words that are stepped over ---

  /** A name of letters, digits and underscores that begins with no digit. */
  ghost predicate IsName(name: string) {
    && name != "" && !('0' <= name[0] <= '9')
    && forall i :: 0 <= i < |name| ==>
      'A' <= name[i] <= 'Z' || 'a' <= name[i] <= 'z' || name[i] == '_' || '0' <= name[i] <= '9'
  }

  ghost predicate Assigns(w: string, name: string, value: string) {
    IsName(name) && w == name + ("=" + value)
  }

  lemma AssignmentIff(w: string)
    ensures IsEnvAssignment(w) <==> exists name, value :: Assigns(w, name, value)
  {
    var eq := FirstIndex(w, c => c == '=');
    if IsEnvAssignment(w) {
      var name, value := w[..eq.value], w[eq.value + 1..];
      assert w == name + ("=" + value);
      assert forall i :: 0 <= i < |name| ==> name[i] == w[i] && IsWordChar(w[i]);
      assert Assigns(w, name, value);
    }
    if name, value :| Assigns(w, name, value) {
      assert w[|name|] == '=';
      assert forall i :: 0 <= i < |name| ==> w[i] == name[i];
      assert eq.value == |name|;
    }
  }

  /** An assignment, or a command that runs the rest of its words. */
  ghost predicate SteppedOver(w: string) {
    || (exists name, value :: Assigns(w, name, value))
    || w == "env" || w == "sudo" || w == "command" || w == "nice" || w == "time" || w == "stdbuf" || w == "nohup" || w == "doas"
  }

  lemma SteppedOverIff(w: string)
    ensures SteppedOver(w) <==> !IsCommandWord(w)
  {
    AssignmentIff(w);
  }

  // --- words that name a shell ---

  predicate IsShellName(name: string) {
    name == "sh" || name == "bash" || name == "zsh" || name == "dash" || name == "ksh"
  }

  lemma ShellNames(name: string)
    ensures IsShellName(name) <==> name in SHELLS
  {
  }

  /** A part that adds nothing to a path. */
  predicate Idle(part: string) {
    part == "" || part == "."
  }

  ghost predicate IsTrail(parts: seq<string>) {
    forall i :: 0 <= i < |parts| ==> Idle(parts[i])
  }

  /** The last part of the path that is a name, among its parts. */
  ghost predicate LastNameAt(parts: seq<string>, k: int) {
    0 <= k < |parts| && !Idle(parts[k]) && IsTrail(parts[k + 1..])
  }

  lemma {:induction false} ComponentsOfTrail(parts: seq<string>)
    requires IsTrail(parts)
    ensures Components(parts) == []
  {
    if parts != [] {
      assert Idle(parts[0]);
      ComponentsOfTrail(parts[1..]);
    }
  }

  lemma {:induction false} ComponentsConcat(a: seq<string>, b: seq<string>)
    ensures Components(a + b) == Components(a) + Components(b)
  {
    if a == [] {
      assert a + b == b;
    } else {
      assert (a + b)[0] == a[0] && (a + b)[1..] == a[1..] + b;
      ComponentsConcat(a[1..], b);
    }
  }

  lemma LastComponent(parts: seq<string>, k: int)
    requires LastNameAt(parts, k)
    ensures Components(parts) != [] && Components(parts)[|Components(parts)| - 1] == parts[k]
  {
    var tail := [parts[k]] + parts[k + 1..];
    assert parts == parts[..k] + tail && tail[1..] == parts[k + 1..];
    ComponentsOfTrail(parts[k + 1..]);
    assert Components(tail) == [parts[k]];
    ComponentsConcat(parts[..k], tail);
  }

  lemma {:induction false} LastNameExists(parts: seq<string>) returns (k: int)
    requires !IsTrail(parts)
    ensures LastNameAt(parts, k)
    decreases |parts|
  {
    if IsTrail(parts[1..]) {
      k := 0;
      forall j | 0 < j < |parts| ensures Idle(parts[j]) { assert Idle(parts[1..][j - 1]); }
    } else {
      var j := LastNameExists(parts[1..]);
      k := j + 1;
      assert parts[k + 1..] == parts[1..][j + 1..];
    }
  }

  /** The last part of the path that is a name is this one. */
  ghost predicate EndsInName(path: string, name: string) {
    exists k :: LastNameAt(Split(path, '/'), k) && Split(path, '/')[k] == name
  }

  lemma NamedByLast(path: string, k: int)
    requires LastNameAt(Split(path, '/'), k)
    ensures FileName(path) == if Split(path, '/')[k] == ".." then None else Some(Split(path, '/')[k])
  {
    LastComponent(Split(path, '/'), k);
  }

  /** The file name of a path is its last part that is a name, unless that goes up. */
  lemma FileNameIff(path: string, name: string)
    ensures FileName(path) == Some(name) <==> name != ".." && EndsInName(path, name)
  {
    var parts := Split(path, '/');
    if IsTrail(parts) {
      ComponentsOfTrail(parts);
      forall k ensures !LastNameAt(parts, k) { if 0 <= k < |parts| { assert Idle(parts[k]); } }
    } else {
      var k := LastNameExists(parts);
      NamedByLast(path, k);
      forall j | LastNameAt(parts, j) ensures parts[j] == parts[k] {
        LastComponent(parts, j);
        LastComponent(parts, k);
      }
    }
  }

  // --- statements that run a script ---

  /** `-c`, alone or in a group of short flags. */
  ghost predicate TakesScript(alnum: char -> bool, arg: string) {
    || arg == "-c"
    || (|arg| > 1 && arg[0] == '-' && arg[1] != '-' && 'c' in arg[1..] && forall c :: c in arg[1..] ==> alnum(c))
  }

  lemma TakesScriptIff(alnum: char -> bool, arg: string)
    ensures TakesScript(alnum, arg) <==> IsScriptFlag(alnum, arg)
  {
    if BundlesShort(alnum, arg, 'c') {
      forall c | c in arg[1..] ensures alnum(c) {
        var i :| 0 <= i < |arg[1..]| && arg[1..][i] == c;
        assert alnum(arg[i + 1]);
      }
    }
    if |arg| > 1 && forall c :: c in arg[1..] ==> alnum(c) {
      forall i | 1 <= i < |arg| ensures alnum(arg[i]) { assert arg[1..][i - 1] in arg[1..]; }
    }
  }

  ghost predicate NamesShell(w: string) {
    exists name :: IsShellName(name) && EndsInName(w, name)
  }

  lemma NamesShellIff(w: string)
    ensures NamesShell(w) <==> FileName(w).Some? && FileName(w).value in SHELLS
  {
    if name :| IsShellName(name) && EndsInName(w, name) {
      ShellNames(name);
      FileNameIff(w, name);
    }
    if FileName(w).Some? {
      ShellNames(FileName(w).value);
      FileNameIff(w, FileName(w).value);
    }
  }

  /** The first word that is not stepped over. */
  ghost predicate CommandAt(stmt: Statement, i: int) {
    0 <= i < |stmt| && !SteppedOver(stmt[i]) && forall k :: 0 <= k < i ==> SteppedOver(stmt[k])
  }

  /** The first argument that takes a script. */
  ghost predicate FlagAt(alnum: char -> bool, args: seq<string>, j: int) {
    0 <= j < |args| && TakesScript(alnum, args[j]) && forall k :: 0 <= k < j ==> !TakesScript(alnum, args[k])
  }

  /** The command is a shell, and the script stands after the first flag that takes one. */
  ghost predicate RunsScriptAt(alnum: char -> bool, stmt: Statement, i: int, j: int, script: string) {
    && CommandAt(stmt, i) && NamesShell(stmt[i])
    && var args := stmt[i + 1..];
    FlagAt(alnum, args, j) && j + 1 < |args| && args[j + 1] == script
  }

  lemma CommandIff(stmt: Statement, i: int)
    ensures CommandAt(stmt, i) <==> FirstCommandWord(stmt) == Some(i)
  {
    forall k | 0 <= k < |stmt| ensures IsCommandWord(stmt[k]) <==> !SteppedOver(stmt[k]) { SteppedOverIff(stmt[k]); }
  }

  lemma FlagIff(alnum: char -> bool, args: seq<string>, j: int)
    ensures FlagAt(alnum, args, j) <==> FirstScriptFlag(alnum, args) == Some(j)
  {
    forall k | 0 <= k < |args| ensures IsScriptFlag(alnum, args[k]) <==> TakesScript(alnum, args[k]) {
      TakesScriptIff(alnum, args[k]);
    }
  }

  lemma RunsScript(alnum: char -> bool, stmt: Statement, i: int, j: int, script: string)
    requires RunsScriptAt(alnum, stmt, i, j, script)
    ensures ShellScript(alnum, stmt) == Some(script)
  {
    CommandIff(stmt, i);
    NamesShellIff(stmt[i]);
    FlagIff(alnum, stmt[i + 1..], j);
  }

  lemma ScriptRuns(alnum: char -> bool, stmt: Statement) returns (i: int, j: int)
    requires ShellScript(alnum, stmt).Some?
    ensures RunsScriptAt(alnum, stmt, i, j, ShellScript(alnum, stmt).value)
  {
    i := FirstCommandWord(stmt).value;
    j := FirstScriptFlag(alnum, stmt[i + 1..]).value;
    CommandIff(stmt, i);
    NamesShellIff(stmt[i]);
    FlagIff(alnum, stmt[i + 1..], j);
  }

  /** A statement runs a script if and only if, after assignments and commands such as `sudo`,
      it calls a shell by whatever path with a flag that takes the script; the script is the
      word after the first such flag. */
  lemma ScriptIff(alnum: char -> bool, stmt: Statement, script: string)
    ensures ShellScript(alnum, stmt) == Some(script) <==> exists i, j :: RunsScriptAt(alnum, stmt, i, j, script)
  {
    if ShellScript(alnum, stmt) == Some(script) { var i, j := ScriptRuns(alnum, stmt); }
    if i, j :| RunsScriptAt(alnum, stmt, i, j, script) { RunsScript(alnum, stmt, i, j, script); }
  }
}
