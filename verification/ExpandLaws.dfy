// What words expand to: variables, the status, substitutions; and what a line writes out.
module ExpandLaws {
  import opened Basics
  import opened Ints
  import opened Parse
  import opened ParseLaws
  import opened Lists
  import opened Shell
  import opened ShellLaws
  import Arith

  lemma ItemAndRest<W>(h: Host<W>, sh: State<W>, s: string, out: string, n: nat, sh1: State<W>, rest: string)
    requires s != "" && ExpandItem(h, sh, s) == (out, n, sh1) && After(s, n) == rest
    ensures Expand(h, sh, s) == (out + Expand(h, sh1, rest).0, Expand(h, sh1, rest).1)
  {
  }

  // ---- variables ----

  // As much of a text as the budget pays for, and the budget behind it.
  function Afforded(text: string, budget: int): string {
    if budget <= 0 then "" else if |text| > budget then text[..budget] else text
  }

  function Debited<W>(sh: State<W>, text: string): State<W> {
    sh.(expandBudget := sh.expandBudget - |text|)
  }

  lemma TakeIs<W>(sh: State<W>, text: string)
    ensures var paid := Afforded(text, sh.expandBudget);
            Take(sh, text) == (paid, Debited(sh, paid))
  {
  }

  predicate IsVariable(name: string) {
    name != "" && forall i :: 0 <= i < |name| ==> Arith.IsWordChar(name[i])
  }

  function ValueOf<W>(sh: State<W>, name: string): string {
    if name in sh.env then sh.env[name] else ""
  }

  lemma VariableItem<W>(h: Host<W>, sh: State<W>, name: string, rest: string)
    requires IsVariable(name) && (rest != "" ==> !Arith.IsWordChar(rest[0]))
    ensures var paid := Afforded(ValueOf(sh, name), sh.expandBudget);
            ExpandItem(h, sh, "$" + (name + rest)) == (paid, |name| + 1, Debited(sh, paid))
  {
    var s := "$" + (name + rest);
    assert s[1..] == name + rest && s[1] == name[0] && Arith.IsWordChar(s[1]);
    Arith.SpanExact(name, rest, Arith.IsWordChar);
    assert s[1..][..|name|] == name;
    TakeIs(sh, ValueOf(sh, name));
  }

  // A variable expands to its value, as far as the budget goes, and what stands behind it
  // is expanded with the budget that is left.
  lemma VariableExpands<W>(h: Host<W>, sh: State<W>, name: string, rest: string)
    requires IsVariable(name) && (rest != "" ==> !Arith.IsWordChar(rest[0]))
    ensures var paid := Afforded(ValueOf(sh, name), sh.expandBudget);
            var (tail, sh') := Expand(h, Debited(sh, paid), rest);
            Expand(h, sh, "$" + (name + rest)) == (paid + tail, sh')
  {
    var paid := Afforded(ValueOf(sh, name), sh.expandBudget);
    VariableItem(h, sh, name, rest);
    assert After("$" + (name + rest), |name| + 1) == rest;
    ItemAndRest(h, sh, "$" + (name + rest), paid, |name| + 1, Debited(sh, paid), rest);
  }

  lemma BracedItem<W>(h: Host<W>, sh: State<W>, name: string, rest: string)
    requires '}' !in name
    ensures var paid := Afforded(ValueOf(sh, name), sh.expandBudget);
            ExpandItem(h, sh, "${" + (name + ['}'] + rest)) == (paid, |name| + 3, Debited(sh, paid))
  {
    var s := "${" + (name + ['}'] + rest);
    TwoInFront('$', '{', name + ['}'] + rest);
    UntilExact(name, '}', rest);
    assert s[2..][..|name|] == name;
    TakeIs(sh, ValueOf(sh, name));
  }

  // The same in braces, for any name without a closing one.
  lemma BracedExpands<W>(h: Host<W>, sh: State<W>, name: string, rest: string)
    requires '}' !in name
    ensures var paid := Afforded(ValueOf(sh, name), sh.expandBudget);
            var (tail, sh') := Expand(h, Debited(sh, paid), rest);
            Expand(h, sh, "${" + (name + ['}'] + rest)) == (paid + tail, sh')
  {
    var s, paid := "${" + (name + ['}'] + rest), Afforded(ValueOf(sh, name), sh.expandBudget);
    BracedItem(h, sh, name, rest);
    assert After(s, |name| + 3) == rest;
    ItemAndRest(h, sh, s, paid, |name| + 3, Debited(sh, paid), rest);
  }

  // `$?` is the last status and `$$` the number of the shell, both in decimal.
  lemma StatusExpands<W>(h: Host<W>, sh: State<W>, rest: string)
    ensures var (tail, sh') := Expand(h, sh, rest);
            && Expand(h, sh, "$?" + rest) == (Itoa(sh.last) + tail, sh')
            && Expand(h, sh, "$$" + rest) == ("2841" + tail, sh')
  {
    TwoInFront('$', '?', rest);
    TwoInFront('$', '$', rest);
    ZerosInFront("");
    assert ExpandItem(h, sh, "$?" + rest) == (Itoa(sh.last), 2, sh);
    assert ExpandItem(h, sh, "$$" + rest) == (Itoa(SHELL_PID), 2, sh);
    ItemAndRest(h, sh, "$?" + rest, Itoa(sh.last), 2, sh, rest);
    ItemAndRest(h, sh, "$$" + rest, Itoa(SHELL_PID), 2, sh, rest);
  }

  // A dollar sign that starts none of these stands for itself.
  lemma DollarStays<W>(h: Host<W>, sh: State<W>, rest: string)
    requires rest != "" ==> rest[0] !in "$(?{" && !Arith.IsWordChar(rest[0])
    ensures var (tail, sh') := Expand(h, sh, rest);
            Expand(h, sh, "$" + rest) == ("$" + tail, sh')
  {
    var s := "$" + rest;
    assert s[1..] == rest;
    assert ExpandItem(h, sh, s) == ("$", 1, sh);
    ItemAndRest(h, sh, s, "$", 1, sh, rest);
  }

  // ---- substitutions ----

  predicate AllLf(s: string) {
    forall i :: 0 <= i < |s| ==> s[i] == '\n'
  }

  // `word` is `raw` without the newlines at its ends, and with spaces for those inside.
  ghost predicate OneWord(raw: string, word: string) {
    exists i, j :: MiddleIs(raw, i, j, word)
  }

  predicate MiddleIs(raw: string, i: nat, j: nat, word: string) {
    && i <= j <= |raw| && |word| == j - i
    && AllLf(raw[..i]) && AllLf(raw[j..])
    && (i < j ==> raw[i] != '\n' && raw[j - 1] != '\n')
    && (forall k :: 0 <= k < |word| ==> word[k] == if raw[i + k] == '\n' then ' ' else raw[i + k])
  }

  lemma {:induction false} TrimLeftIs(s: string) returns (i: nat)
    ensures i <= |s| && TrimLeft(s) == s[i..] && AllLf(s[..i]) && (i < |s| ==> s[i] != '\n')
    decreases |s|
  {
    if s != "" && s[0] == '\n' {
      var i' := TrimLeftIs(s[1..]);
      i := i' + 1;
      assert s[..i] == [s[0]] + s[1..][..i'];
    } else {
      i := 0;
    }
  }

  lemma {:induction false} TrimRightIs(s: string) returns (j: nat)
    ensures j <= |s| && TrimRight(s) == s[..j] && AllLf(s[j..]) && (j > 0 ==> s[j - 1] != '\n')
    decreases |s|
  {
    if s != "" && s[|s| - 1] == '\n' {
      j := TrimRightIs(s[..|s| - 1]);
      assert s[j..] == s[..|s| - 1][j..] + [s[|s| - 1]];
    } else {
      j := |s|;
    }
  }

  lemma {:induction false} ReplaceLfAt(s: string, k: nat)
    requires k < |s|
    ensures |ReplaceLf(s, " ")| == |s|
    ensures ReplaceLf(s, " ")[k] == if s[k] == '\n' then ' ' else s[k]
    decreases |s|
  {
    FoldedLength(s);
    FoldedLength(s[1..]);
    if k > 0 {
      ReplaceLfAt(s[1..], k - 1);
    }
  }

  lemma FoldedIsOneWord(raw: string)
    ensures OneWord(raw, Folded(raw))
  {
    var left := TrimLeft(raw);
    var i := TrimLeftIs(raw);
    var n := TrimRightIs(left);
    var middle := left[..n];
    FoldedLength(middle);
    forall k | 0 <= k < |middle| ensures Folded(raw)[k] == if middle[k] == '\n' then ' ' else middle[k] {
      ReplaceLfAt(middle, k);
    }
    assert raw[i + n..] == left[n..];
    assert MiddleIs(raw, i, i + n, Folded(raw));
  }

  // What a substitution of `line` gives: nothing when too many ran, the budget is used up
  // or the shells are nested too deep; else the word of what the line wrote.
  ghost predicate Substitutes<W>(h: Host<W>, sh: State<W>, line: string, out: string, sh': State<W>) {
    if sh.subCount >= MAX_CMD_SUBS || sh.expandBudget <= 0
    then out == "" && sh' == sh.(subCount := sh.subCount + 1)
    else
      if sh.execDepth >= MAX_EXEC_DEPTH then out == "" && sh' == Counted(sh)
      else
        var end := RunLine(h, Counted(sh).(capture := Some("")), line);
        end.capture.Some? && OneWord(end.capture.value, out) && sh' == end.(capture := sh.capture)
  }

  lemma CapturedIs<W>(h: Host<W>, sh: State<W>, line: string)
    requires sh.execDepth < MAX_EXEC_DEPTH
    ensures var end := RunLine(h, sh.(capture := Some("")), line);
            end.capture.Some? && RunCaptured(h, sh, line) == (end.capture.value, end.(capture := sh.capture))
  {
  }

  function Counted<W>(sh: State<W>): State<W> {
    sh.(subCount := sh.subCount + 1, subsRun := sh.subsRun + 1)
  }

  lemma SubstitutionRuns<W>(h: Host<W>, sh: State<W>, line: string)
    requires sh.subCount < MAX_CMD_SUBS && sh.expandBudget > 0
    ensures var (out, sh1) := RunCaptured(h, Counted(sh), line);
            CmdSub(h, sh, line) == (Folded(out), sh1)
  {
  }

  lemma CmdSubSubstitutes<W>(h: Host<W>, sh: State<W>, line: string)
    ensures Substitutes(h, sh, line, CmdSub(h, sh, line).0, CmdSub(h, sh, line).1)
  {
    if sh.subCount < MAX_CMD_SUBS && sh.expandBudget > 0 {
      SubstitutionRuns(h, sh, line);
      FoldedIsOneWord(RunCaptured(h, Counted(sh), line).0);
      if sh.execDepth < MAX_EXEC_DEPTH {
        CapturedIs(h, Counted(sh), line);
      }
    }
  }

  lemma {:induction false} BeforeCloseAt(line: string, rest: string, depth: nat)
    requires Balanced(line, depth)
    ensures BeforeClose(line + (")" + rest), depth + 1) == |line|
    decreases |line|
  {
    var s := line + (")" + rest);
    if line == "" {
      assert s == ")" + rest;
    } else {
      assert s[1..] == line[1..] + (")" + rest);
      BeforeCloseAt(line[1..], rest, if line[0] == '(' then depth + 1 else if line[0] == ')' then depth - 1 else depth);
    }
  }

  lemma SubstitutionItem<W>(h: Host<W>, sh: State<W>, line: string, rest: string)
    requires Balanced(line, 0) && (line != "" ==> line[0] != '(')
    ensures var (out, sh1) := CmdSub(h, sh, line);
            ExpandItem(h, sh, "$(" + (line + (")" + rest))) == (out, |line| + 3, sh1)
  {
    var tail := line + (")" + rest);
    TwoInFront('$', '(', tail);
    BeforeCloseAt(line, rest, 0);
    assert tail[0] == if line == "" then ')' else line[0];
    assert ("$(" + tail)[2] == tail[0];
    assert tail[..|line|] == line;
  }

  // `$(line)` is the word of what the line wrote, and what stands behind it is expanded in
  // the state the line left.
  lemma SubstitutionExpands<W>(h: Host<W>, sh: State<W>, line: string, rest: string) returns (out: string, sh1: State<W>)
    requires Balanced(line, 0) && (line != "" ==> line[0] != '(')
    ensures Substitutes(h, sh, line, out, sh1)
    ensures Expand(h, sh, "$(" + (line + (")" + rest))) == (out + Expand(h, sh1, rest).0, Expand(h, sh1, rest).1)
  {
    var s := "$(" + (line + (")" + rest));
    CmdSubSubstitutes(h, sh, line);
    SubstitutionItem(h, sh, line, rest);
    BehindClose(line, rest);
    out, sh1 := CmdSub(h, sh, line).0, CmdSub(h, sh, line).1;
    ItemAndRest(h, sh, s, out, |line| + 3, sh1, rest);
  }

  // The same in backquotes.
  lemma BackquotesExpand<W>(h: Host<W>, sh: State<W>, line: string, rest: string) returns (out: string, sh1: State<W>)
    requires '`' !in line
    ensures Substitutes(h, sh, line, out, sh1)
    ensures Expand(h, sh, ['`'] + (line + ['`'] + rest)) == (out + Expand(h, sh1, rest).0, Expand(h, sh1, rest).1)
  {
    var s := ['`'] + (line + ['`'] + rest);
    CmdSubSubstitutes(h, sh, line);
    assert s[1..] == line + ['`'] + rest;
    UntilExact(line, '`', rest);
    assert s[1..][..|line|] == line && s[|line| + 2..] == rest;
    out, sh1 := CmdSub(h, sh, line).0, CmdSub(h, sh, line).1;
    assert ExpandItem(h, sh, s) == (out, |line| + 2, sh1);
    ItemAndRest(h, sh, s, out, |line| + 2, sh1, rest);
  }

  // ---- what a line writes out ----

  predicate IsUnredirected(stg: Stage) {
    !stg.outNull && stg.outFile == ""
  }

  // Inside a substitution the output is kept as far as the budget goes.
  lemma CaptureKeeps<W>(h: Host<W>, sh: State<W>, stg: Stage, out: string)
    requires IsUnredirected(stg) && sh.capture.Some?
    ensures var paid := Afforded(out, sh.expandBudget);
            Emit(h, sh, stg, out) == Debited(sh, paid).(capture := Some(sh.capture.value + paid))
  {
    TakeIs(sh, out);
  }

  // A captured pipeline of filters gives what its last stage writes.
  lemma CapturedPipeline<W(!new)>(h: Host<W>, filter: (seq<string>, string) -> (string, Int64), sh: State<W>,
      line: string, st: Statement)
    requires FilterHost(h, filter) && ParseLine(line) == [st] && Filters(st)
    requires IsUnredirected(st.stages[|st.stages| - 1])
    requires 1 <= sh.execDepth < MAX_EXEC_DEPTH
    ensures var (out, status) := Through(filter, st.stages, "");
            var paid := Afforded(out, sh.expandBudget);
            RunCaptured(h, sh, line) == (paid, Debited(sh, paid).(last := status))
  {
    var inside := sh.(capture := Some(""), execDepth := sh.execDepth + 1);
    var (out, status) := Through(filter, st.stages, "");
    FiltersWrite(h, filter, inside, st);
    CapturedOne(h, sh, inside, line, st, Afforded(out, sh.expandBudget), status);
  }

  lemma CapturedOne<W>(h: Host<W>, sh: State<W>, inside: State<W>, line: string, st: Statement, paid: string, status: Int64)
    requires ParseLine(line) == [st] && 1 <= sh.execDepth < MAX_EXEC_DEPTH
    requires inside == sh.(capture := Some(""), execDepth := sh.execDepth + 1)
    requires RunStatement(h, inside, st) == Debited(inside, paid).(capture := Some(paid), last := status)
    ensures RunCaptured(h, sh, line) == (paid, Debited(sh, paid).(last := status))
  {
    var captured := sh.(capture := Some(""));
    OneNested(h, captured, inside, line, st);
    CapturedGives(h, sh, captured, RunStatement(h, inside, st).(execDepth := sh.execDepth), line);
  }

  lemma CapturedGives<W>(h: Host<W>, sh: State<W>, captured: State<W>, end: State<W>, line: string)
    requires sh.execDepth < MAX_EXEC_DEPTH && captured == sh.(capture := Some(""))
    requires RunLine(h, captured, line) == end
    ensures end.capture.Some? && RunCaptured(h, sh, line) == (end.capture.value, end.(capture := sh.capture))
  {
  }

  lemma FiltersWrite<W(!new)>(h: Host<W>, filter: (seq<string>, string) -> (string, Int64), sh: State<W>, st: Statement)
    requires FilterHost(h, filter) && Filters(st)
    requires IsUnredirected(st.stages[|st.stages| - 1]) && sh.capture == Some("")
    ensures var (out, status) := Through(filter, st.stages, "");
            var paid := Afforded(out, sh.expandBudget);
            RunStatement(h, sh, st) == Debited(sh, paid).(capture := Some(paid), last := status)
  {
    var (out, status) := Through(filter, st.stages, "");
    FilterStatement(h, filter, sh, st);
    CaptureKeeps(h, sh, st.stages[|st.stages| - 1], out);
    assert "" + Afforded(out, sh.expandBudget) == Afforded(out, sh.expandBudget);
  }

  // A nested line of one statement.
  lemma OneNested<W>(h: Host<W>, sh: State<W>, inside: State<W>, line: string, st: Statement)
    requires ParseLine(line) == [st] && 1 <= sh.execDepth < MAX_EXEC_DEPTH
    requires inside == sh.(execDepth := sh.execDepth + 1)
    ensures RunLine(h, sh, line) == RunStatement(h, inside, st).(execDepth := sh.execDepth)
  {
    assert RunLine(h, sh, line) == RunParsed(h, sh, [st]);
    ParsedRuns(h, sh, [st]);
    OneStatementRuns(h, inside, st);
  }

  lemma OneStatementRuns<W>(h: Host<W>, sh: State<W>, st: Statement)
    ensures RunStatements(h, sh, [st], true) == RunStatement(h, sh, st)
  {
    var sh1 := RunStatement(h, sh, st);
    assert [st][1..] == [];
    assert RunStatements(h, sh1, [], NextRun(st.chain, sh1.last)) == sh1;
  }

  // Text in lines, each with the given end.
  function Lined(ws: seq<string>, end: string): string {
    if ws == [] then "" else ws[0] + end + Lined(ws[1..], end)
  }

  lemma {:induction false} ReplaceLfConcat(a: string, b: string, with: string)
    ensures ReplaceLf(a + b, with) == ReplaceLf(a, with) + ReplaceLf(b, with)
    decreases |a|
  {
    if a == "" {
      assert a + b == b;
    } else {
      assert (a + b)[1..] == a[1..] + b;
      ReplaceLfConcat(a[1..], b, with);
      ConcatAssociates(if a[0] == '\n' then with else [a[0]], ReplaceLf(a[1..], with), ReplaceLf(b, with));
    }
  }

  lemma {:induction false} ReplaceLfNone(w: string, with: string)
    requires '\n' !in w
    ensures ReplaceLf(w, with) == w
  {
    if w != "" {
      ReplaceLfNone(w[1..], with);
      assert [w[0]] + w[1..] == w;
    }
  }

  lemma {:induction false} LinesReplaced(ws: seq<string>, with: string)
    requires forall w :: w in ws ==> '\n' !in w
    ensures ReplaceLf(Lined(ws, "\n"), with) == Lined(ws, with)
  {
    if ws != [] {
      LinesReplaced(ws[1..], with);
      ReplaceLfConcat(ws[0] + "\n", Lined(ws[1..], "\n"), with);
      ReplaceLfConcat(ws[0], "\n", with);
      ReplaceLfNone(ws[0], with);
      OneLf(with);
    }
  }

  lemma OneLf(with: string)
    ensures ReplaceLf("\n", with) == with
  {
    assert "\n"[1..] == "";
    assert with + "" == with;
  }

  lemma {:induction false} LinedEnds(ws: seq<string>, end: string)
    requires ws != []
    ensures Lined(ws, end) == Lined(ws[..|ws| - 1], end) + ws[|ws| - 1] + end
    decreases |ws|
  {
    if |ws| == 1 {
      assert Lined(ws[1..], end) == "" && Lined(ws[..0], end) == "";
      assert ws[0] + end + "" == "" + ws[0] + end;
    } else {
      LinedEnds(ws[1..], end);
      var front, last := ws[..|ws| - 1], ws[|ws| - 1];
      assert ws[1..][..|ws| - 2] == front[1..] && ws[1..][|ws| - 2] == last;
      LinedStep(ws[0] + end, Lined(front[1..], end), last, end);
    }
  }

  lemma LinedStep(a: string, b: string, c: string, d: string)
    ensures a + (b + c + d) == a + b + c + d
  {
  }

  lemma EmitEnded<W>(h: Host<W>, sh: State<W>, stg: Stage, body: string)
    requires IsUnredirected(stg) && sh.capture.None?
    ensures Emit(h, sh, stg, body + "\n") == sh.(term := sh.term + ReplaceLf(body + "\n", "\r\n"))
  {
    assert (body + "\n")[|body|] == '\n';
  }

  lemma EmitOpen<W>(h: Host<W>, sh: State<W>, stg: Stage, body: string)
    requires IsUnredirected(stg) && sh.capture.None? && body != "" && body[|body| - 1] != '\n'
    ensures Emit(h, sh, stg, body) == Emit(h, sh, stg, body + "\n")
  {
    EmitEnded(h, sh, stg, body);
  }

  // On the terminal each line ends in a carriage return and a line feed, and so does the
  // last if it was not ended.
  lemma TerminalShows<W>(h: Host<W>, sh: State<W>, stg: Stage, ws: seq<string>)
    requires IsUnredirected(stg) && sh.capture.None?
    requires ws != [] && forall w :: w in ws ==> '\n' !in w
    ensures Emit(h, sh, stg, Lined(ws, "\n")) == sh.(term := sh.term + Lined(ws, "\r\n"))
    ensures ws[|ws| - 1] != "" ==>
      Emit(h, sh, stg, Lined(ws[..|ws| - 1], "\n") + ws[|ws| - 1]) == sh.(term := sh.term + Lined(ws, "\r\n"))
  {
    var front, last := Lined(ws[..|ws| - 1], "\n"), ws[|ws| - 1];
    LinedEnds(ws, "\n");
    LinesReplaced(ws, "\r\n");
    EmitEnded(h, sh, stg, front + last);
    if last != "" {
      LastOf(front, last);
      EmitOpen(h, sh, stg, front + last);
    }
  }

  lemma LastOf(front: string, last: string)
    requires last != "" && '\n' !in last
    ensures var s := front + last;
            s != "" && s[|s| - 1] != '\n'
  {
    assert last[|last| - 1] in last;
  }

  // Output sent to /dev/null is gone.
  lemma NullDiscards<W>(h: Host<W>, sh: State<W>, stg: Stage, out: string)
    requires stg.outNull || (IsUnredirected(stg) && out == "" && sh.capture.None?)
    ensures Emit(h, sh, stg, out) == sh
  {
  }

  // Too deep in re-entered shells a line runs nothing, whatever it says.
  lemma DepthGuard<W>(h: Host<W>, sh: State<W>, line: string)
    requires sh.execDepth >= MAX_EXEC_DEPTH
    ensures RunLine(h, sh, line) == sh.(term := sh.term + "Segmentation fault (core dumped)\r\n", last := 139)
  {
  }

  // A command that re-enters the shell runs its line in the state it left, and answers
  // with its own status if it has one, and with the line's if not.
  lemma ReentryRuns<W>(h: Host<W>, sh: State<W>, args: seq<string>, stdin: string, line: string, e: Effect<W>,
      out: string, status: Option<Int64>)
    requires args != [] && Invoke(h, sh, args, stdin) == Reenter(line, e, out, status)
    ensures var end := RunLine(h, sh.(env := e.env, fs := e.fs, quit := e.quit, term := e.term, world := e.world), line);
            RunCommand(h, sh, args, stdin) == (out, if status.Some? then status.value else end.last, end)
  {
  }

  // A filter with one plain word and one variable: it gets the value, which is paid for
  // twice, since the words of a single command are expanded once to see whether it takes
  // the terminal over and once to run it.
  lemma LoneIsPaidTwice<W(!new)>(h: Host<W>, filter: (seq<string>, string) -> (string, Int64), sh: State<W>,
      cmd: string, name: string, stg: Stage)
    requires FilterHost(h, filter) && Plain(cmd) && !IsInteractive(cmd) && IsVariable(name)
    requires 0 < 2 * |ValueOf(sh, name)| <= sh.expandBudget && stg.args == [cmd, "$" + name]
    ensures var v := ValueOf(sh, name);
            var (out, status) := filter([cmd, v], "");
            RunStatement(h, sh, Statement([stg], End)) == Emit(h, Debited(Debited(sh, v), v), stg, out).(last := status)
  {
    var v := ValueOf(sh, name);
    var once := Debited(sh, v);
    ExpandedTwice(h, sh, once, cmd, name, stg);
    PipedFilter(h, filter, once, Debited(once, v), stg, [cmd, v]);
  }

  lemma ExpandedTwice<W>(h: Host<W>, sh: State<W>, once: State<W>, cmd: string, name: string, stg: Stage)
    requires Plain(cmd) && !IsInteractive(cmd) && IsVariable(name)
    requires 0 < 2 * |ValueOf(sh, name)| <= sh.expandBudget && stg.args == [cmd, "$" + name]
    requires once == Debited(sh, ValueOf(sh, name))
    ensures RunStatement(h, sh, Statement([stg], End)) == RunPipeline(h, once, [stg], "", 0)
    ensures ExpandAll(h, once, stg.args) == ([cmd, ValueOf(sh, name)], Debited(once, ValueOf(sh, name)))
  {
    TwoWords(h, sh, cmd, name);
    TwoWords(h, once, cmd, name);
    LoneRuns(h, sh, once, stg, [cmd, ValueOf(sh, name)]);
  }

  lemma TwoWords<W>(h: Host<W>, sh: State<W>, cmd: string, name: string)
    requires Plain(cmd) && IsVariable(name) && 0 < |ValueOf(sh, name)| <= sh.expandBudget
    ensures ExpandAll(h, sh, [cmd, "$" + name]) == ([cmd, ValueOf(sh, name)], Debited(sh, ValueOf(sh, name)))
  {
    var v := ValueOf(sh, name);
    PlainIsKept(h, sh, cmd);
    VariableExpands(h, sh, name, "");
    assert name + "" == name && v + "" == v;
    assert Expand(h, Debited(sh, v), "") == ("", Debited(sh, v));
    OneWordLeft(h, sh, "$" + name, v, Debited(sh, v));
    assert [cmd, "$" + name][1..] == ["$" + name] && [cmd] + [v] == [cmd, v];
  }

  lemma OneWordLeft<W>(h: Host<W>, sh: State<W>, w: string, v: string, sh1: State<W>)
    requires Expand(h, sh, w) == (v, sh1)
    ensures ExpandAll(h, sh, [w]) == ([v], sh1)
  {
    assert [w][1..] == [] && [v] + [] == [v];
    assert ExpandAll(h, sh1, []) == ([], sh1);
  }

  lemma LoneRuns<W>(h: Host<W>, sh: State<W>, once: State<W>, stg: Stage, args: seq<string>)
    requires stg.args != [] && args != [] && ExpandAll(h, sh, stg.args) == (args, once) && !IsInteractive(args[0])
    ensures RunStatement(h, sh, Statement([stg], End)) == RunPipeline(h, once, [stg], "", 0)
  {
    var st := Statement([stg], End);
    assert RunStatement(h, sh, st) == RunLone(h, sh, st.stages[0]);
  }

  lemma PipedFilter<W(!new)>(h: Host<W>, filter: (seq<string>, string) -> (string, Int64), once: State<W>,
      twice: State<W>, stg: Stage, args: seq<string>)
    requires FilterHost(h, filter) && args != [] && ExpandAll(h, once, stg.args) == (args, twice)
    ensures RunPipeline(h, once, [stg], "", 0) == Emit(h, twice, stg, filter(args, "").0).(last := filter(args, "").1)
  {
  }
}
