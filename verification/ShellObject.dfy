// The shell object: its fields change as a line runs, and each method leaves what the
// function of the same name in `Shell` says of `View()`.
module ShellObject {
  import opened Basics
  import opened Ints
  import opened Parse
  import opened Lists
  import opened Shell
  import opened ShellLaws
  import ExpandLaws
  import Arith
  import Paths
  import Vfs

  lemma AfterAdds(w: string, i: nat, n: nat)
    ensures After(After(w, i), n) == After(w, i + n)
  {}

  // One part of a word, and what is expanded behind it.
  lemma PartStep<W>(h: Host<W>, sh: State<W>, sh': State<W>, w: string, i: nat, i': nat, b: string, b': string,
      out: string)
    requires i < |w| && i <= i' && ExpandItem(h, sh, After(w, i)) == (out, i' - i, sh') && b' == b + out
    ensures b' + Expand(h, sh', After(w, i')).0 == b + Expand(h, sh, After(w, i)).0
    ensures Expand(h, sh', After(w, i')).1 == Expand(h, sh, After(w, i)).1
    ensures i < i' && sh'.execDepth == sh.execDepth
  {
    AfterAdds(w, i, i' - i);
    ExpandLaws.ItemAndRest(h, sh, After(w, i), out, i' - i, sh', After(w, i'));
    ConcatAssociates(b, out, Expand(h, sh', After(w, i')).0);
  }

  lemma StartsEmpty(s: string)
    ensures "" + s == s
  {}

  lemma EndsEmpty(s: string)
    ensures s + "" == s
  {}

  // Where the parenthesis stands that closes `depth` open ones.
  method FindClose(s: string, i: nat, depth: nat) returns (j: nat)
    requires i <= |s| && depth >= 1
    ensures i <= j <= |s| && j - i == BeforeClose(s[i..], depth)
  {
    j := i;
    var open := depth;
    while j < |s| && (s[j] != ')' || open > 1)
      invariant i <= j <= |s| && open >= 1
      invariant j - i + BeforeClose(s[j..], open) == BeforeClose(s[i..], depth)
    {
      assert s[j..][1..] == s[j + 1..];
      if s[j] == '(' {
        open := open + 1;
      } else if s[j] == ')' {
        open := open - 1;
      }
      j := j + 1;
    }
  }

  method FindWordEnd(s: string, i: nat) returns (j: nat)
    requires i <= |s|
    ensures i <= j <= |s| && j - i == Arith.Span(s[i..], Arith.IsWordChar)
  {
    j := i;
    while j < |s| && Arith.IsWordChar(s[j])
      invariant i <= j <= |s|
      invariant j - i + Arith.Span(s[j..], Arith.IsWordChar) == Arith.Span(s[i..], Arith.IsWordChar)
    {
      assert s[j..][1..] == s[j + 1..];
      j := j + 1;
    }
  }

  lemma SliceShift(s: string, i: nat, j: nat)
    requires i <= j <= |s|
    ensures s[i..][..j - i] == s[i..j]
  {}

  predicate PipesIntoShell(st: Statement) {
    && |st.stages| > 1
    && var end := st.stages[|st.stages| - 1];
    && end.args != [] && (end.args[0] == "sh" || end.args[0] == "bash")
  }

  lemma PipedRuns<W>(h: Host<W>, sh: State<W>, st: Statement)
    requires PipesIntoShell(st)
    ensures var (args, sh1) := ExpandAll(h, sh, st.stages[0].args);
            RunStatement(h, sh, st) == RunInteractive(h, sh1, args).1.(last := 0)
  {
  }

  lemma ManyRun<W>(h: Host<W>, sh: State<W>, st: Statement)
    requires |st.stages| > 1 && !PipesIntoShell(st)
    ensures RunStatement(h, sh, st) == RunPipeline(h, sh, st.stages, "", 0)
  {
  }

  lemma OneRuns<W>(h: Host<W>, sh: State<W>, st: Statement)
    requires |st.stages| == 1 && st.stages[0].args != []
    ensures RunStatement(h, sh, st) == RunLone(h, sh, st.stages[0])
  {
  }

  class Interpreter<W> {
    const host: Host<W>
    var env: map<string, string>
    var last: Int64
    var quit: bool
    var execDepth: nat
    var expandBudget: int
    var subCount: nat
    var subsRun: nat
    var capture: Option<string>
    var fs: Vfs.State
    var term: string
    var world: W

    function View(): State<W>
      reads this
    {
      State(env, last, quit, execDepth, expandBudget, subCount, subsRun, capture, fs, term, world)
    }

    constructor (host: Host<W>, env: map<string, string>, fs: Vfs.State, world: W)
      ensures this.host == host
      ensures View() == State(env, 0, false, 0, 0, 0, 0, None, fs, "", world)
    {
      this.host := host;
      this.env, this.fs, this.world := env, fs, world;
      last, quit, execDepth, expandBudget, subCount, subsRun := 0, false, 0, 0, 0, 0;
      capture, term := None, "";
    }

    method TakeBudget(s: string) returns (t: string)
      modifies this
      ensures (t, View()) == Take(old(View()), s)
    {
      if expandBudget <= 0 {
        return "";
      }
      t := s;
      if |t| > expandBudget {
        t := t[..expandBudget];
      }
      expandBudget := expandBudget - |t|;
    }

    method WriteTo(stg: Stage, out: string)
      requires !stg.outNull && stg.outFile != ""
      modifies this
      ensures View() == Emit(host, old(View()), stg, out)
    {
      var path := Paths.Show(Vfs.Resolve(fs, stg.outFile));
      var data := out;
      if stg.appendT {
        var existing := Vfs.ReadFile(fs, path);
        if existing.Ok? && |existing.value| > 0 {
          data := existing.value + data;
        }
      }
      var (fs', status) := Store(host, View(), path, data);
      fs := fs';
      if status == Vfs.Failure(Vfs.NoSpace) {
        term := term + "-bash: " + stg.outFile + ": No space left on device\r\n";
      }
    }

    method EmitOutput(stg: Stage, out: string)
      modifies this
      ensures View() == Emit(host, old(View()), stg, out)
    {
      if stg.outNull {
        return;
      }
      if stg.outFile != "" {
        WriteTo(stg, out);
        return;
      }
      if capture.Some? {
        var taken := TakeBudget(out);
        capture := Some(capture.value + taken);
        return;
      }
      if out == "" {
        return;
      }
      var text := out;
      if text[|text| - 1] != '\n' {
        text := text + "\n";
      }
      term := term + ReplaceLf(text, "\r\n");
    }

    method RunText(line: string)
      modifies this
      ensures View() == RunLine(host, old(View()), line)
      decreases Height(View()), 0, 1
    {
      if execDepth == 0 {
        expandBudget, subCount, subsRun := MAX_EXPAND_BYTES, 0, 0;
      }
      assert View() == Refill(old(View()));
      var stmts := ParseCommand(line);
      RunGuarded(stmts);
    }

    method RunGuarded(stmts: seq<Statement>)
      modifies this
      ensures View() == RunParsed(host, old(View()), stmts)
      decreases Height(View()), 0, 0
    {
      if execDepth >= MAX_EXEC_DEPTH {
        term := term + "Segmentation fault (core dumped)\r\n";
        last := 139;
        return;
      }
      ParsedRuns(host, View(), stmts);
      execDepth := execDepth + 1;
      RunAll(stmts);
      execDepth := execDepth - 1;
    }

    method RunAll(stmts: seq<Statement>)
      modifies this
      ensures View() == RunStatements(host, old(View()), stmts, true)
      decreases Height(View()), 8, 0
    {
      var run, i := true, 0;
      while i < |stmts|
        invariant 0 <= i <= |stmts|
        invariant Height(View()) == old(Height(View()))
        invariant RunStatements(host, View(), stmts[i..], run) == RunStatements(host, old(View()), stmts, true)
      {
        assert stmts[i..][0] == stmts[i] && stmts[i..][1..] == stmts[i + 1..];
        if run {
          RunOne(stmts[i]);
          if quit {
            return;
          }
        }
        run := NextRun(stmts[i].chain, last);
        i := i + 1;
      }
    }

    method RunOne(st: Statement)
      modifies this
      ensures View() == RunStatement(host, old(View()), st)
      decreases Height(View()), 7, 0
    {
      if |st.stages| == 0 {
        return;
      }
      var first := st.stages[0];
      if |st.stages| == 1 && |first.args| == 0 {
        Assign(first.assigns);
        last := 0;
        return;
      }
      RunStages(st);
    }

    // A statement that runs something.
    method RunStages(st: Statement)
      requires st.stages != [] && (|st.stages| == 1 ==> st.stages[0].args != [])
      modifies this
      ensures View() == RunStatement(host, old(View()), st)
      decreases Height(View()), 6, 3
    {
      if |st.stages| > 1 {
        var end := st.stages[|st.stages| - 1];
        if |end.args| > 0 && (end.args[0] == "sh" || end.args[0] == "bash") {
          TakeOver(st);
          return;
        }
        ManyRun(host, View(), st);
        Pipe(st.stages);
      } else {
        OneRuns(host, View(), st);
        RunSingle(st.stages[0]);
      }
    }

    // A pipeline into a shell: its producing stage is run as if it had the terminal.
    method TakeOver(st: Statement)
      requires PipesIntoShell(st)
      modifies this
      ensures View() == RunStatement(host, old(View()), st)
      decreases Height(View()), 6, 2
    {
      PipedRuns(host, View(), st);
      TakeOverStage(st.stages[0]);
      last := 0;
    }

    method TakeOverStage(first: Stage)
      modifies this
      ensures var (args, sh1) := ExpandAll(host, old(View()), first.args);
              View() == RunInteractive(host, sh1, args).1
      decreases Height(View()), 6, 0
    {
      var args := ExpandStage(first.args);
      var _ := Interactive(args);
    }

    // A command by itself: expanded to see whether it is interactive, and if it is not,
    // expanded again as a pipeline of one.
    method RunSingle(stg: Stage)
      modifies this
      ensures View() == RunLone(host, old(View()), stg)
      decreases Height(View()), 6, 2
    {
      var args := ExpandStage(stg.args);
      if |args| > 0 && IsInteractive(args[0]) {
        var code := Interactive(args);
        last := code;
        return;
      }
      Pipe([stg]);
    }

    method Assign(assigns: map<string, string>)
      modifies this
      ensures View() == RunAssigns(host, old(View()), assigns, host.order(assigns))
      decreases Height(View()), 6, 0
    {
      var names := host.order(assigns);
      var i := 0;
      while i < |names|
        invariant 0 <= i <= |names|
        invariant Height(View()) == old(Height(View()))
        invariant RunAssigns(host, View(), assigns, names[i..]) == RunAssigns(host, old(View()), assigns, names)
      {
        assert names[i..][0] == names[i] && names[i..][1..] == names[i + 1..];
        if names[i] in assigns {
          var value := ExpandWord(assigns[names[i]]);
          env := env[names[i] := value];
        }
        i := i + 1;
      }
    }

    method Pipe(stages: seq<Stage>)
      modifies this
      ensures View() == RunPipeline(host, old(View()), stages, "", 0)
      decreases Height(View()), 6, 1
    {
      var stdin, code: Int64, i := "", 0, 0;
      while i < |stages|
        invariant 0 <= i <= |stages|
        invariant Height(View()) == old(Height(View()))
        invariant RunPipeline(host, View(), stages[i..], stdin, code) == RunPipeline(host, old(View()), stages, "", 0)
      {
        stdin, code := PipeStage(stages, i, stdin, code);
        i := i + 1;
      }
      last := code;
    }

    // One turn of that loop.
    method PipeStage(stages: seq<Stage>, i: nat, stdin: string, code: Int64) returns (stdin': string, code': Int64)
      requires i < |stages|
      modifies this
      ensures Height(View()) == old(Height(View()))
      ensures RunPipeline(host, View(), stages[i + 1..], stdin', code')
           == RunPipeline(host, old(View()), stages[i..], stdin, code)
      decreases Height(View()), 6, 0
    {
      assert stages[i..][0] == stages[i] && stages[i..][1..] == stages[i + 1..];
      stdin', code' := stdin, code;
      var args := ExpandStage(stages[i].args);
      if |args| == 0 {
        return;
      }
      var out;
      out, code' := Command(args, stdin);
      if i == |stages| - 1 {
        EmitOutput(stages[i], out);
      } else {
        stdin' := out;
      }
    }

    method Command(args: seq<string>, stdin: string) returns (out: string, code: Int64)
      requires args != []
      modifies this
      ensures (out, code, View()) == RunCommand(host, old(View()), args, stdin)
      decreases Height(View()), 5, 0
    {
      out, code := Perform(Invoke(host, View(), args, stdin));
    }

    method Interactive(args: seq<string>) returns (code: Int64)
      modifies this
      ensures (code, View()) == RunInteractive(host, old(View()), args)
      decreases Height(View()), 5, 0
    {
      if |args| == 0 {
        return 0;
      }
      var _, status := Perform(InvokeInteractive(host, View(), args));
      return status;
    }

    method Perform(b: Behaviour<W>) returns (out: string, code: Int64)
      modifies this
      ensures (out, code, View()) == Act(host, old(View()), b)
      decreases Height(View()), 4, 0
    {
      match b {
        case Done(o, c, e) =>
          Apply(e);
          return o, c;
        case Reenter(line, e, o, status) =>
          Apply(e);
          RunText(line);
          return o, if status.Some? then status.value else last;
      }
    }

    method Apply(e: Effect<W>)
      modifies this
      ensures View() == ApplyEffect(old(View()), e)
    {
      env, fs, quit, term, world := e.env, e.fs, e.quit, e.term, e.world;
    }

    method ExpandStage(words: seq<string>) returns (out: seq<string>)
      modifies this
      ensures (out, View()) == ExpandAll(host, old(View()), words)
      decreases Height(View()), 5, |words|
    {
      out := [];
      var i := 0;
      assert out + ExpandAll(host, View(), words).0 == ExpandAll(host, View(), words).0;
      while i < |words|
        invariant 0 <= i <= |words|
        invariant Height(View()) == old(Height(View()))
        invariant var (rest, end) := ExpandAll(host, View(), words[i..]);
                  (out + rest, end) == ExpandAll(host, old(View()), words)
      {
        assert words[i..][0] == words[i] && words[i..][1..] == words[i + 1..];
        var w := ExpandWord(words[i]);
        assert forall rest :: out + ([w] + rest) == out + [w] + rest;
        out := out + [w];
        i := i + 1;
      }
      assert out + [] == out;
    }

    method ExpandWord(w: string) returns (b: string)
      modifies this
      ensures (b, View()) == Expand(host, old(View()), w)
      decreases Height(View()), 4, 2
    {
      if '$' !in w && '`' !in w {
        PlainIsKept(host, View(), w);
        return w;
      }
      b := ExpandParts(w);
    }

    method ExpandParts(w: string) returns (b: string)
      modifies this
      ensures (b, View()) == Expand(host, old(View()), w)
      decreases Height(View()), 4, 1
    {
      b := "";
      var i := 0;
      StartsEmpty(Expand(host, View(), w).0);
      while i < |w|
        invariant execDepth == old(execDepth)
        invariant b + Expand(host, View(), After(w, i)).0 == Expand(host, old(View()), w).0
        invariant Expand(host, View(), After(w, i)).1 == Expand(host, old(View()), w).1
        decreases |w| - i
      {
        b, i := ExpandPart(w, i, b);
      }
      EndsEmpty(b);
    }

    // One turn of that loop.
    method ExpandPart(w: string, i: nat, b: string) returns (b': string, i': nat)
      requires i < |w|
      modifies this
      ensures i < i' && execDepth == old(execDepth)
      ensures b' + Expand(host, View(), After(w, i')).0 == b + Expand(host, old(View()), After(w, i)).0
      ensures Expand(host, View(), After(w, i')).1 == Expand(host, old(View()), After(w, i)).1
      decreases Height(View()), 4, 0
    {
      ghost var before := View();
      var out, n := ExpandAt(After(w, i));
      b', i' := b + out, i + n;
      PartStep(host, before, View(), w, i, i', b, b', out);
    }

    // What the text at the start of `s` becomes, and its length.
    method ExpandAt(s: string) returns (out: string, n: nat)
      requires s != ""
      modifies this
      ensures (out, n, View()) == ExpandItem(host, old(View()), s)
      decreases Height(View()), 3, 2
    {
      if s[0] == '`' {
        var j := CopyUntil(s, 1, '`');
        SliceShift(s, 1, j);
        out := Substitute(s[1..j]);
        return out, j + 1;
      }
      if s[0] != '$' {
        return [s[0]], 1;
      }
      out, n := ExpandDollar(s);
    }

    method ExpandDollar(s: string) returns (out: string, n: nat)
      requires s != "" && s[0] == '$'
      modifies this
      ensures (out, n, View()) == ExpandItem(host, old(View()), s)
      decreases Height(View()), 3, 1
    {
      if NextIs(s, 1, '$') {
        return Itoa(SHELL_PID), 2;
      }
      if NextIs(s, 1, '(') && NextIs(s, 2, '(') {
        out, n := ExpandArithmetic(s);
        return;
      }
      if NextIs(s, 1, '(') {
        out, n := ExpandSubstitution(s);
        return;
      }
      if NextIs(s, 1, '?') {
        return Itoa(last), 2;
      }
      out, n := ExpandVariable(s);
    }

    method ExpandArithmetic(s: string) returns (out: string, n: nat)
      requires s != "" && s[0] == '$' && NextIs(s, 1, '(') && NextIs(s, 2, '(')
      ensures (out, n, View()) == ExpandItem(host, View(), s)
    {
      var j := FindClose(s, 3, 2);
      SliceShift(s, 3, j);
      var value := Evaluate(s[3..j]);
      return Itoa(value), j + 2;
    }

    method ExpandSubstitution(s: string) returns (out: string, n: nat)
      requires s != "" && s[0] == '$' && NextIs(s, 1, '(') && !NextIs(s, 2, '(')
      modifies this
      ensures (out, n, View()) == ExpandItem(host, old(View()), s)
      decreases Height(View()), 3, 0
    {
      var j := FindClose(s, 2, 1);
      SliceShift(s, 2, j);
      out := Substitute(s[2..j]);
      return out, j + 1;
    }

    method ExpandVariable(s: string) returns (out: string, n: nat)
      requires s != "" && s[0] == '$'
      requires !NextIs(s, 1, '$') && !NextIs(s, 1, '(') && !NextIs(s, 1, '?')
      modifies this
      ensures (out, n, View()) == ExpandItem(host, old(View()), s)
    {
      if NextIs(s, 1, '{') {
        var j := CopyUntil(s, 2, '}');
        SliceShift(s, 2, j);
        if j < |s| {
          out := TakeBudget(Arith.Getenv(env, s[2..j]));
          return out, j + 1;
        }
      }
      var j := FindWordEnd(s, 1);
      SliceShift(s, 1, j);
      if j == 1 {
        return "$", 1;
      }
      out := TakeBudget(Arith.Getenv(env, s[1..j]));
      return out, j;
    }

    method Evaluate(text: string) returns (value: Int64)
      ensures value == Arith.EvalArith(env, text)
    {
      var parser := new Arith.Evaluator(env, text);
      var v := parser.ParseAdd();
      value := v;
    }

    method Substitute(inner: string) returns (out: string)
      modifies this
      ensures (out, View()) == CmdSub(host, old(View()), inner)
      decreases Height(View()), 2, 0
    {
      subCount := subCount + 1;
      if subCount > MAX_CMD_SUBS || expandBudget <= 0 {
        return "";
      }
      subsRun := subsRun + 1;
      ExpandLaws.SubstitutionRuns(host, old(View()), inner);
      assert View() == ExpandLaws.Counted(old(View()));
      var raw := Captured(inner);
      return Folded(raw);
    }

    method Captured(line: string) returns (out: string)
      modifies this
      ensures (out, View()) == RunCaptured(host, old(View()), line)
      decreases Height(View()), 1, 0
    {
      if execDepth >= MAX_EXEC_DEPTH {
        return "";
      }
      var prev := capture;
      capture := Some("");
      RunText(line);
      out := capture.value;
      capture := prev;
    }
  }
}
