// What holds of the line interpreter beyond its budget: words without specials, whole
// arithmetic words, and the reading of statement lists.
module ShellLaws {
  import opened Ints
  import opened Parse
  import opened Lists
  import opened Shell
  import Arith

  // ---- words ----

  predicate Plain(s: string) {
    forall i :: 0 <= i < |s| ==> s[i] != '$' && s[i] != '`'
  }

  lemma {:induction false} PlainIsKept<W>(h: Host<W>, sh: State<W>, s: string)
    requires Plain(s)
    ensures Expand(h, sh, s) == (s, sh)
    decreases |s|
  {
    if s != "" {
      assert ExpandItem(h, sh, s) == ([s[0]], 1, sh);
      PlainIsKept(h, sh, s[1..]);
      assert [s[0]] + s[1..] == s;
    }
  }

  lemma {:induction false} PlainWordsAreKept<W>(h: Host<W>, sh: State<W>, words: seq<string>)
    requires forall w :: w in words ==> Plain(w)
    ensures ExpandAll(h, sh, words) == (words, sh)
    decreases |words|
  {
    if words != [] {
      PlainIsKept(h, sh, words[0]);
      PlainWordsAreKept(h, sh, words[1..]);
      assert [words[0]] + words[1..] == words;
    }
  }

  // Expansion goes word part by word part.
  lemma {:induction false} PlainPrefix<W>(h: Host<W>, sh: State<W>, a: string, s: string)
    requires Plain(a)
    ensures Expand(h, sh, a + s) == (a + Expand(h, sh, s).0, Expand(h, sh, s).1)
    decreases |a|
  {
    if a == "" {
      assert a + s == s && "" + Expand(h, sh, s).0 == Expand(h, sh, s).0;
    } else {
      assert (a + s)[1..] == a[1..] + s;
      assert ExpandItem(h, sh, a + s) == ([a[0]], 1, sh);
      PlainPrefix(h, sh, a[1..], s);
      assert [a[0]] + (a[1..] + Expand(h, sh, s).0) == a + Expand(h, sh, s).0;
    }
  }

  // ---- arithmetic ----

  predicate NoParens(s: string) {
    forall i :: 0 <= i < |s| ==> s[i] != '(' && s[i] != ')'
  }

  lemma {:induction false} CloseSkips(a: string, rest: string, depth: nat)
    requires NoParens(a)
    ensures BeforeClose(a + rest, depth) == |a| + BeforeClose(rest, depth)
    decreases |a|
  {
    if a == "" {
      assert a + rest == rest;
    } else {
      assert (a + rest)[1..] == a[1..] + rest;
      CloseSkips(a[1..], rest, depth);
    }
  }

  lemma {:induction false} SpNoParens(n: nat)
    ensures NoParens(Arith.Sp(n))
  {
    if n > 0 {
      SpNoParens(n - 1);
    }
  }

  lemma LeafHasNoParens(e: Arith.Expr)
    requires Arith.WellFormed(e) && (e.Lit? || e.Name?)
    ensures NoParens(Arith.Body(e))
  {
    SpNoParens(e.sp);
    if e.Name? {
      forall i | 0 <= i < |e.name| ensures e.name[i] != '(' && e.name[i] != ')' {
        assert Arith.IsWordChar(e.name[i]);
      }
    }
  }

  // A pair of parentheses around balanced text is balanced.
  lemma ParensBalance(open: string, body: string, close: string, rest: string, depth: nat)
    requires depth >= 1 && NoParens(open) && NoParens(close)
    requires BeforeClose(body + (close + (")" + rest)), depth + 1) == |body| + BeforeClose(close + (")" + rest), depth + 1)
    ensures BeforeClose(open + ("(" + (body + (close + (")" + rest)))), depth)
         == |open| + |body| + |close| + 2 + BeforeClose(rest, depth)
  {
    var inner := body + (close + (")" + rest));
    CloseSkips(open, "(" + inner, depth);
    assert ("(" + inner)[1..] == inner;
    CloseSkips(close, ")" + rest, depth + 1);
    assert (")" + rest)[1..] == rest;
  }

  // Printed expressions are balanced.
  lemma {:induction false} ShowIsBalanced(e: Arith.Expr, level: nat, rest: string, depth: nat)
    requires Arith.WellFormed(e) && depth >= 1
    ensures BeforeClose(Arith.Show(e, level) + rest, depth) == |Arith.Show(e, level)| + BeforeClose(rest, depth)
    decreases e, 1
  {
    if e.Bin? && Arith.Prec(e) < level {
      var open, body, close := Arith.Sp(e.open), Arith.Body(e), Arith.Sp(e.close);
      SpNoParens(e.open);
      SpNoParens(e.close);
      assert Arith.Show(e, level) + rest == open + ("(" + (body + (close + (")" + rest))));
      BodyIsBalanced(e, close + (")" + rest), depth + 1);
      ParensBalance(open, body, close, rest, depth);
    } else {
      BodyIsBalanced(e, rest, depth);
    }
  }

  lemma {:induction false} BodyIsBalanced(e: Arith.Expr, rest: string, depth: nat)
    requires Arith.WellFormed(e) && depth >= 1
    ensures BeforeClose(Arith.Body(e) + rest, depth) == |Arith.Body(e)| + BeforeClose(rest, depth)
    decreases e, 0
  {
    match e {
      case Lit(_, _) =>
        LeafHasNoParens(e);
        CloseSkips(Arith.Body(e), rest, depth);
      case Name(_, _, _) =>
        LeafHasNoParens(e);
        CloseSkips(Arith.Body(e), rest, depth);
      case Sign(sp, minus, inner) =>
        var head := Arith.Sp(sp) + (if minus then "-" else "+");
        SpNoParens(sp);
        assert Arith.Body(e) + rest == head + (Arith.Show(inner, 2) + rest);
        CloseSkips(head, Arith.Show(inner, 2) + rest, depth);
        ShowIsBalanced(inner, 2, rest, depth);
      case Bin(_, l, _, r, _, _) =>
        var p := Arith.Prec(e);
        OperatorIsBalanced(e, Arith.Show(r, p + 1) + rest, depth);
        ShowIsBalanced(l, p, Arith.Sp(e.sp) + ([e.op] + (Arith.Show(r, p + 1) + rest)), depth);
        ShowIsBalanced(r, p + 1, rest, depth);
        Arith.BinText(e, rest);
    }
  }

  lemma OperatorIsBalanced(e: Arith.Expr, right: string, depth: nat)
    requires Arith.WellFormed(e) && e.Bin?
    ensures BeforeClose(Arith.Sp(e.sp) + ([e.op] + right), depth) == |Arith.Sp(e.sp)| + 1 + BeforeClose(right, depth)
  {
    SpNoParens(e.sp);
    CloseSkips(Arith.Sp(e.sp), [e.op] + right, depth);
    CloseSkips([e.op], right, depth);
  }

  // $((...)) with a printed expression inside becomes its value, but takes the character
  // behind the closing parentheses with it; on a whole word there is none.
  lemma ArithmeticWord<W>(h: Host<W>, sh: State<W>, e: Arith.Expr, trailing: nat, behind: string)
    requires Arith.WellFormed(e)
    ensures var text := Arith.Show(e, 0) + Arith.Sp(trailing);
            var (tail, sh') := Expand(h, sh, After(behind, 1));
            && Expand(h, sh, "$((" + text + "))" + behind) == (Itoa(Arith.Value(sh.env, e)) + tail, sh')
            && (behind == "" ==> Expand(h, sh, "$((" + text + "))" + behind) == (Itoa(Arith.Value(sh.env, e)), sh))
  {
    var text := Arith.Show(e, 0) + Arith.Sp(trailing);
    var s := "$((" + text + "))" + behind;
    ArithmeticItem(h, sh, e, trailing, behind);
    assert After(s, |text| + 6) == After(behind, 1);
    assert Expand(h, sh, "") == ("", sh);
    assert Itoa(Arith.Value(sh.env, e)) + "" == Itoa(Arith.Value(sh.env, e));
  }

  // So text behind the parentheses survives exactly when there is none.
  lemma ArithmeticSwallows<W>(h: Host<W>, sh: State<W>, e: Arith.Expr, trailing: nat, behind: string)
    requires Arith.WellFormed(e) && Plain(behind)
    ensures var text := Arith.Show(e, 0) + Arith.Sp(trailing);
            Expand(h, sh, "$((" + text + "))" + behind).0 == Itoa(Arith.Value(sh.env, e)) + behind <==> behind == ""
  {
    ArithmeticWord(h, sh, e, trailing, behind);
    PlainIsKept(h, sh, After(behind, 1));
  }

  lemma ArithmeticItem<W>(h: Host<W>, sh: State<W>, e: Arith.Expr, trailing: nat, behind: string)
    requires Arith.WellFormed(e)
    ensures var text := Arith.Show(e, 0) + Arith.Sp(trailing);
            ExpandItem(h, sh, "$((" + text + "))" + behind) == (Itoa(Arith.Value(sh.env, e)), |text| + 6, sh)
  {
    var text := Arith.Show(e, 0) + Arith.Sp(trailing);
    var s := "$((" + text + "))" + behind;
    ArithmeticScan(e, trailing, behind);
    ArithmeticText(text, behind);
    Arith.EvalOfShow(sh.env, e, trailing, true);
    ItemAt(h, sh, s, |text| + 1);
  }

  lemma ArithmeticText(text: string, behind: string)
    ensures var s := "$((" + text + "))" + behind;
            && |s| > 3 && s[0] == '$' && s[1] == '(' && s[2] == '('
            && s[3..] == text + ("))" + behind) && s[3..][..|text| + 1] == text + ")"
  {
  }

  lemma ItemAt<W>(h: Host<W>, sh: State<W>, s: string, n: nat)
    requires |s| > 3 && s[0] == '$' && s[1] == '(' && s[2] == '(' && BeforeClose(s[3..], 2) == n
    ensures ExpandItem(h, sh, s) == (Itoa(Arith.EvalArith(sh.env, s[3..][..n])), n + 5, sh)
  {
  }

  lemma ArithmeticScan(e: Arith.Expr, trailing: nat, behind: string)
    requires Arith.WellFormed(e)
    ensures var text := Arith.Show(e, 0) + Arith.Sp(trailing);
            BeforeClose(text + ("))" + behind), 2) == |text| + 1
  {
    var show, sp, close := Arith.Show(e, 0), Arith.Sp(trailing), "))" + behind;
    assert show + sp + close == show + (sp + close);
    ShowIsBalanced(e, 0, sp + close, 2);
    SpNoParens(trailing);
    CloseSkips(sp, close, 2);
    assert close[1..] == ")" + behind;
    assert BeforeClose(")" + behind, 1) == 0;
  }

  // Arithmetic reads back what arithmetic stored: after `x=$((e))` the variable counts as
  // the value of `e`, any 64-bit number, negative ones included.
  lemma ArithmeticStored<W>(h: Host<W>, sh: State<W>, name: string, e: Arith.Expr, trailing: nat, chain: Chain)
    requires Arith.WellFormed(e)
    requires h.order(map[name := Assigned(e, trailing)]) == [name]
    ensures var v := Arith.Value(sh.env, e);
            var r := RunStatement(h, sh, Statement([EMPTY.(assigns := map[name := Assigned(e, trailing)])], chain));
            r == sh.(env := sh.env[name := Itoa(v)], last := 0) && Arith.VarValue(r.env, name) == v
  {
    var v, text := Arith.Value(sh.env, e), Assigned(e, trailing);
    ArithmeticWord(h, sh, e, trailing, "");
    assert text + "" == text;
    AssignsOnly(h, sh, EMPTY.(assigns := map[name := text]), chain);
    AssignOne(h, sh, map[name := text], name, Itoa(v));
    AtoiOfItoa(v);
  }

  lemma AssignsOnly<W>(h: Host<W>, sh: State<W>, stg: Stage, chain: Chain)
    requires stg.args == []
    ensures RunStatement(h, sh, Statement([stg], chain))
         == RunAssigns(h, sh, stg.assigns, h.order(stg.assigns)).(last := 0)
  {
  }

  lemma AssignOne<W>(h: Host<W>, sh: State<W>, assigns: map<string, string>, name: string, value: string)
    requires name in assigns && Expand(h, sh, assigns[name]) == (value, sh)
    ensures RunAssigns(h, sh, assigns, [name]) == sh.(env := sh.env[name := value])
  {
    var sh1 := sh.(env := sh.env[name := value]);
    assert [name][1..] == [];
    assert RunAssigns(h, sh1, assigns, []) == sh1;
  }

  function Assigned(e: Arith.Expr, trailing: nat): string {
    "$((" + (Arith.Show(e, 0) + Arith.Sp(trailing)) + "))"
  }

  // ---- single statements ----

  function Restricted(assigns: map<string, string>, names: seq<string>): map<string, string> {
    map k | k in assigns && k in names :: assigns[k]
  }

  lemma RestrictedStep(env: map<string, string>, assigns: map<string, string>, k: string,
      rest: seq<string>)
    ensures env + Restricted(assigns, [k] + rest)
         == (if k in assigns then env[k := assigns[k]] else env) + Restricted(assigns, rest)
  {
    var a := env + Restricted(assigns, [k] + rest);
    var b := (if k in assigns then env[k := assigns[k]] else env) + Restricted(assigns, rest);
    assert a.Keys == b.Keys;
    forall x | x in a ensures a[x] == b[x] {}
  }

  // Plain assignments do nothing but set their variables, in whatever order Go visits
  // them and however often.
  lemma {:induction false} PlainAssigns<W>(h: Host<W>, sh: State<W>, assigns: map<string, string>, names: seq<string>)
    requires forall k :: k in assigns ==> Plain(assigns[k])
    ensures RunAssigns(h, sh, assigns, names) == sh.(env := sh.env + Restricted(assigns, names))
    decreases |names|
  {
    if names == [] {
      assert sh.env + Restricted(assigns, names) == sh.env;
    } else {
      var k := names[0];
      assert names == [k] + names[1..];
      RestrictedStep(sh.env, assigns, k, names[1..]);
      if k in assigns {
        PlainIsKept(h, sh, assigns[k]);
        PlainAssigns(h, sh.(env := sh.env[k := assigns[k]]), assigns, names[1..]);
      } else {
        PlainAssigns(h, sh, assigns, names[1..]);
      }
    }
  }

  // ... so a statement of them alone leaves exactly those variables set, and status 0.
  lemma AssignmentsSet<W>(h: Host<W>, sh: State<W>, stg: Stage, chain: Chain)
    requires stg.args == [] && forall k :: k in stg.assigns ==> Plain(stg.assigns[k])
    requires forall k :: k in stg.assigns ==> k in h.order(stg.assigns)
    ensures RunStatement(h, sh, Statement([stg], chain)) == sh.(env := sh.env + stg.assigns, last := 0)
  {
    PlainAssigns(h, sh, stg.assigns, h.order(stg.assigns));
    assert Restricted(stg.assigns, h.order(stg.assigns)) == stg.assigns;
  }

  // Commands that only turn what they read into what they write.
  ghost predicate FilterHost<W(!new)>(h: Host<W>, filter: (seq<string>, string) -> (string, Int64)) {
    forall sh: State<W>, args, stdin :: args != [] ==>
      RunCommand(h, sh, args, stdin) == (filter(args, stdin).0, filter(args, stdin).1, sh)
  }

  predicate PlainStage(stg: Stage) {
    stg.args != [] && forall w :: w in stg.args ==> Plain(w)
  }

  // What the last stage writes, with its status.
  function Through(filter: (seq<string>, string) -> (string, Int64), stages: seq<Stage>, stdin: string): (string, Int64)
    requires stages != []
  {
    var r := filter(stages[0].args, stdin);
    if |stages| == 1 then r else Through(filter, stages[1..], r.0)
  }

  // The last stage of a pipeline, and one before it.
  lemma LastFilters<W(!new)>(h: Host<W>, filter: (seq<string>, string) -> (string, Int64),
      sh: State<W>, stages: seq<Stage>, stdin: string, code: Int64)
    requires FilterHost(h, filter) && |stages| == 1 && PlainStage(stages[0])
    ensures RunPipeline(h, sh, stages, stdin, code)
         == Emit(h, sh, stages[0], filter(stages[0].args, stdin).0).(last := filter(stages[0].args, stdin).1)
  {
    PlainWordsAreKept(h, sh, stages[0].args);
  }

  lemma StageFilters<W(!new)>(h: Host<W>, filter: (seq<string>, string) -> (string, Int64),
      sh: State<W>, stages: seq<Stage>, stdin: string, code: Int64)
    requires FilterHost(h, filter) && |stages| > 1 && PlainStage(stages[0])
    ensures RunPipeline(h, sh, stages, stdin, code)
         == RunPipeline(h, sh, stages[1..], filter(stages[0].args, stdin).0, filter(stages[0].args, stdin).1)
  {
    PlainWordsAreKept(h, sh, stages[0].args);
  }

  // A pipeline of filters is their composition: each reads what the one before wrote, the
  // last one's output is emitted where the last stage says, and its status is the status.
  lemma {:induction false} PipelineComposes<W(!new)>(h: Host<W>, filter: (seq<string>, string) -> (string, Int64),
      sh: State<W>, stages: seq<Stage>, stdin: string, code: Int64)
    requires FilterHost(h, filter) && stages != [] && forall i :: 0 <= i < |stages| ==> PlainStage(stages[i])
    ensures var (out, status) := Through(filter, stages, stdin);
            RunPipeline(h, sh, stages, stdin, code) == Emit(h, sh, stages[|stages| - 1], out).(last := status)
    decreases |stages|
  {
    if |stages| == 1 {
      LastFilters(h, filter, sh, stages, stdin, code);
    } else {
      StageFilters(h, filter, sh, stages, stdin, code);
      var (out, code') := filter(stages[0].args, stdin);
      PipelineComposes(h, filter, sh, stages[1..], out, code');
    }
  }

  predicate Filters(st: Statement) {
    && st.stages != []
    && (forall i :: 0 <= i < |st.stages| ==> PlainStage(st.stages[i]))
    && PlainStage(st.stages[|st.stages| - 1]) && st.stages[|st.stages| - 1].args[0] !in ["sh", "bash"]
    && PlainStage(st.stages[0]) && (|st.stages| == 1 ==> !IsInteractive(st.stages[0].args[0]))
  }

  // The same for a whole statement, unless it pipes into a shell or takes the terminal over.
  lemma FilterStatement<W(!new)>(h: Host<W>, filter: (seq<string>, string) -> (string, Int64),
      sh: State<W>, st: Statement)
    requires FilterHost(h, filter) && Filters(st)
    ensures var (out, status) := Through(filter, st.stages, "");
            RunStatement(h, sh, st) == Emit(h, sh, st.stages[|st.stages| - 1], out).(last := status)
  {
    PipelineComposes(h, filter, sh, st.stages, "", 0);
    PlainWordsAreKept(h, sh, st.stages[0].args);
    if |st.stages| == 1 {
      assert st.stages == [st.stages[0]];
    }
  }

  // ---- statement lists ----

  function MachineOf<W>(h: Host<W>): Machine<State<W>> {
    Machine((sh: State<W>, st: Statement) => RunStatement(h, sh, st), (sh: State<W>) => sh.last as int, (sh: State<W>) => sh.quit)
  }

  lemma {:induction false} StatementsAreLoop<W>(h: Host<W>, sh: State<W>, stmts: seq<Statement>, run: bool,
      trace: seq<Statement>)
    ensures RunStatements(h, sh, stmts, run) == Loop(MachineOf(h), stmts, run, Ran(trace, sh)).state
    decreases |stmts|
  {
    if stmts != [] {
      var r := if run then Exec(MachineOf(h), Ran(trace, sh), stmts[0]) else Ran(trace, sh);
      StatementsAreLoop(h, r.state, stmts[1..], NextRun(stmts[0].chain, r.state.last), r.trace);
    }
  }

  lemma ParsedRuns<W>(h: Host<W>, sh: State<W>, stmts: seq<Statement>)
    requires sh.execDepth < MAX_EXEC_DEPTH
    ensures RunParsed(h, sh, stmts)
         == RunStatements(h, sh.(execDepth := sh.execDepth + 1), stmts, true).(execDepth := sh.execDepth)
  {
  }

  // A parsed line means its AND-OR lists: the run flag does what the grammar says,
  // whatever the commands do, and leaves everything in the same state.
  lemma StatementsMeanLists<W>(h: Host<W>, sh: State<W>, stmts: seq<Statement>)
    requires sh.execDepth < MAX_EXEC_DEPTH
    ensures RunParsed(h, sh, stmts)
         == EvalList(MachineOf(h), ListOf(stmts), Ran([], sh.(execDepth := sh.execDepth + 1))).state.(execDepth := sh.execDepth)
  {
    var entered := sh.(execDepth := sh.execDepth + 1);
    ParsedRuns(h, sh, stmts);
    StatementsAreLoop(h, entered, stmts, true, []);
    LoopRefinesLists(MachineOf(h), stmts, Ran([], entered));
  }
}
