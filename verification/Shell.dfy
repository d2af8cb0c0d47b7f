// The line interpreter: expansion, substitution, redirection and re-entry, on the state
// of one shell.  What single commands do is a parameter; they may re-enter the shell.
module Shell {
  import opened Basics
  import opened Ints
  import opened Parse
  import opened Lists
  import Arith
  import Paths
  import Vfs

  type Int64 = n: int | IsInt64(n)

  const MAX_EXPAND_BYTES := 8 * 1048576
  const MAX_CMD_SUBS := 256
  const MAX_EXEC_DEPTH := 25
  const SHELL_PID := 2841

  // `term` is what was written to the terminal, `world` everything commands keep
  // elsewhere.  `subsRun` counts the substitutions that were not refused.
  datatype State<W> = State(
    env: map<string, string>,
    last: Int64,
    quit: bool,
    execDepth: nat,
    expandBudget: int,
    subCount: nat,
    subsRun: nat,
    capture: Option<string>,
    fs: Vfs.State,
    term: string,
    world: W)

  // The part of the state that a command itself may change.
  datatype Effect<W> = Effect(env: map<string, string>, fs: Vfs.State, quit: bool, term: string, world: W)

  // A command gives its output and status, or runs a line of its own in between (sh -c,
  // a decoded base64 command) and then answers with its status or with the line's.
  datatype Behaviour<W> =
    | Done(out: string, code: Int64, effect: Effect<W>)
    | Reenter(line: string, effect: Effect<W>, out: string, status: Option<Int64>)

  // What the interpreter takes from outside: the commands that filter, the programs that
  // take the terminal over, the order in which Go visits a map, the clock, and whether
  // the overlay pool grants the bytes of a write.
  datatype Host<!W> = Host(
    command: (seq<string>, string, State<W>) -> Behaviour<W>,
    interactive: (seq<string>, State<W>) -> Behaviour<W>,
    order: map<string, string> -> seq<string>,
    now: State<W> -> int,
    granted: State<W> -> bool)

  function Invoke<W>(h: Host<W>, sh: State<W>, args: seq<string>, stdin: string): Behaviour<W> {
    h.command(args, stdin, sh)
  }

  function InvokeInteractive<W>(h: Host<W>, sh: State<W>, args: seq<string>): Behaviour<W> {
    h.interactive(args, sh)
  }

  function Store<W>(h: Host<W>, sh: State<W>, path: string, data: string): (Vfs.State, Vfs.Status) {
    Vfs.WriteFile(sh.fs, path, data, h.now(sh), h.granted(sh))
  }

  function ApplyEffect<W>(sh: State<W>, e: Effect<W>): State<W> {
    sh.(env := e.env, fs := e.fs, quit := e.quit, term := e.term, world := e.world)
  }

  predicate IsInteractive(name: string) {
    name in {
      "top", "htop", "find", "wget", "curl", "vi", "vim", "vim.basic", "nano",
      "crontab", "passwd", "su", "tftp", "ftpget", "ftpput",
      "ssh", "scp", "sftp", "gcc", "cc", "g++", "make",
      "apt", "apt-get", "aptitude", "python", "python2", "python3", "perl",
      "ruby", "sh", "bash", "openssl", "nc", "ncat", "telnet", "mysql",
      "tcpdump", "strace", "ltrace", "tar", "rsync", "pip", "pip3",
      "jp2a", "catimg", "chafa", "img2txt", "asciiview", "aview", "cacaview",
      "vault", "passwords", "pass", "wallet", "balance", "balances",
      "secrets", "keepass", "lpass", "gopass", "bw"}
  }

  // ---- what every step keeps ----

  // Substitutions run never outnumber those counted, nor the cap.
  predicate SubsBounded<W>(sh: State<W>) {
    sh.subsRun <= sh.subCount && sh.subsRun <= MAX_CMD_SUBS
  }

  // Inside a line: the budget only goes down, and what a capture gained was paid for.
  predicate Paid<W>(a: State<W>, b: State<W>) {
    && b.expandBudget <= a.expandBudget
    && (a.expandBudget >= 0 ==> b.expandBudget >= 0)
    && (SubsBounded(a) ==> SubsBounded(b))
    && (a.capture.Some? && b.capture.Some? ==>
          && a.capture.value <= b.capture.value
          && |b.capture.value| - |a.capture.value| <= a.expandBudget - b.expandBudget)
  }

  predicate Kept<W>(a: State<W>, b: State<W>) {
    && b.execDepth == a.execDepth
    && b.capture.Some? == a.capture.Some?
    && (a.execDepth >= 1 ==> Paid(a, b))
  }

  // ---- leaves ----

  function Take<W>(sh: State<W>, s: string): (r: (string, State<W>))
    ensures r.1 == sh.(expandBudget := r.1.expandBudget)
    ensures |r.0| == sh.expandBudget - r.1.expandBudget
    ensures sh.expandBudget >= 0 ==> r.1.expandBudget >= 0
  {
    if sh.expandBudget <= 0 then ("", sh)
    else
      var t := if |s| > sh.expandBudget then s[..sh.expandBudget] else s;
      (t, sh.(expandBudget := sh.expandBudget - |t|))
  }

  function ReplaceLf(s: string, with: string): string {
    if s == "" then "" else (if s[0] == '\n' then with else [s[0]]) + ReplaceLf(s[1..], with)
  }

  function TrimLeft(s: string): (t: string)
    ensures |t| <= |s|
  {
    if s != "" && s[0] == '\n' then TrimLeft(s[1..]) else s
  }

  function TrimRight(s: string): (t: string)
    ensures |t| <= |s|
  {
    if s != "" && s[|s| - 1] == '\n' then TrimRight(s[..|s| - 1]) else s
  }

  // Captured output as one word: no newlines at either end, spaces for those inside.
  function Folded(s: string): string {
    ReplaceLf(TrimRight(TrimLeft(s)), " ")
  }

  lemma {:induction false} FoldedLength(s: string)
    ensures |ReplaceLf(s, " ")| == |s|
  {
    if s != "" {
      FoldedLength(s[1..]);
    }
  }

  // Characters before the parenthesis that closes `depth` open ones, or all of them.
  function BeforeClose(s: string, depth: nat): (n: nat)
    ensures n <= |s|
  {
    if s == "" then 0
    else if s[0] == ')' && depth <= 1 then 0
    else 1 + BeforeClose(s[1..], if s[0] == '(' then depth + 1 else if s[0] == ')' then depth - 1 else depth)
  }

  function Emit<W>(h: Host<W>, sh: State<W>, stg: Stage, out: string): (r: State<W>)
    ensures Kept(sh, r)
  {
    if stg.outNull then sh
    else if stg.outFile != "" then
      var path := Paths.Show(Vfs.Resolve(sh.fs, stg.outFile));
      var existing := Vfs.ReadFile(sh.fs, path);
      var data := if stg.appendT && existing.Ok? && |existing.value| > 0 then existing.value + out else out;
      var (fs, status) := Store(h, sh, path, data);
      var sh' := sh.(fs := fs);
      if status == Vfs.Failure(Vfs.NoSpace)
      then sh'.(term := sh.term + "-bash: " + stg.outFile + ": No space left on device\r\n")
      else sh'
    else if sh.capture.Some? then
      var (taken, sh') := Take(sh, out);
      sh'.(capture := Some(sh.capture.value + taken))
    else if out == "" then sh
    else
      var text := if out[|out| - 1] != '\n' then out + "\n" else out;
      sh.(term := sh.term + ReplaceLf(text, "\r\n"))
  }

  // ---- the mutual recursion ----

  function Height<W>(sh: State<W>): nat {
    if sh.execDepth >= MAX_EXEC_DEPTH then 0 else MAX_EXEC_DEPTH - sh.execDepth
  }

  // A line at the top refills the budget; nested lines share it.
  function Refill<W>(sh: State<W>): State<W> {
    if sh.execDepth == 0 then sh.(expandBudget := MAX_EXPAND_BYTES, subCount := 0, subsRun := 0) else sh
  }

  // Over one top-level line, with everything nested in it: the bytes debited are at most
  // the budget, the substitutions run at most the cap, and depth and capture are restored.
  function RunLine<W>(h: Host<W>, sh: State<W>, line: string): (r: State<W>)
    ensures Kept(sh, r)
    ensures sh.execDepth == 0 ==> 0 <= r.expandBudget <= MAX_EXPAND_BYTES && r.subsRun <= MAX_CMD_SUBS
    ensures sh.execDepth == 0 && sh.capture.Some? ==>
      && sh.capture.value <= r.capture.value
      && |r.capture.value| - |sh.capture.value| <= MAX_EXPAND_BYTES - r.expandBudget
    decreases Height(sh), 0, 1
  {
    RunParsed(h, Refill(sh), ParseLine(line))
  }

  // The guard against endless re-entry, and the statements one level deeper.
  function RunParsed<W>(h: Host<W>, sh: State<W>, stmts: seq<Statement>): (r: State<W>)
    ensures Kept(sh, r)
    ensures sh.execDepth == 0 ==> Paid(sh, r)
    decreases Height(sh), 0, 0
  {
    if sh.execDepth >= MAX_EXEC_DEPTH then
      sh.(term := sh.term + "Segmentation fault (core dumped)\r\n", last := 139)
    else
      var sh1 := RunStatements(h, sh.(execDepth := sh.execDepth + 1), stmts, true);
      sh1.(execDepth := sh1.execDepth - 1)
  }

  function RunStatements<W>(h: Host<W>, sh: State<W>, stmts: seq<Statement>, run: bool): (r: State<W>)
    ensures Kept(sh, r)
    decreases Height(sh), 8, |stmts|
  {
    if stmts == [] then sh
    else
      var sh1 := if run then RunStatement(h, sh, stmts[0]) else sh;
      if run && sh1.quit then sh1
      else RunStatements(h, sh1, stmts[1..], NextRun(stmts[0].chain, sh1.last))
  }

  function RunStatement<W>(h: Host<W>, sh: State<W>, st: Statement): (r: State<W>)
    ensures Kept(sh, r)
    decreases Height(sh), 7, 0
  {
    if st.stages == [] then sh
    else
      var first, last := st.stages[0], st.stages[|st.stages| - 1];
      if |st.stages| == 1 && first.args == [] then
        RunAssigns(h, sh, first.assigns, h.order(first.assigns)).(last := 0)
      else if |st.stages| > 1 && last.args != [] && (last.args[0] == "sh" || last.args[0] == "bash") then
        var (args, sh1) := ExpandAll(h, sh, first.args);
        RunInteractive(h, sh1, args).1.(last := 0)
      else if |st.stages| == 1 then RunLone(h, sh, first)
      else RunPipeline(h, sh, st.stages, "", 0)
  }

  // A command by itself takes over if it is interactive; if it is not, its words are
  // expanded again.
  function RunLone<W>(h: Host<W>, sh: State<W>, stg: Stage): (r: State<W>)
    ensures Kept(sh, r)
    decreases Height(sh), 6, 2
  {
    var (args, sh1) := ExpandAll(h, sh, stg.args);
    if args != [] && IsInteractive(args[0]) then
      var (code, sh2) := RunInteractive(h, sh1, args);
      sh2.(last := code)
    else RunPipeline(h, sh1, [stg], "", 0)
  }

  // A statement of assignments only.
  function RunAssigns<W>(h: Host<W>, sh: State<W>, assigns: map<string, string>, names: seq<string>): (r: State<W>)
    ensures Kept(sh, r)
    decreases Height(sh), 6, |names|
  {
    if names == [] then sh
    else if names[0] !in assigns then RunAssigns(h, sh, assigns, names[1..])
    else
      var (value, sh1) := Expand(h, sh, assigns[names[0]]);
      RunAssigns(h, sh1.(env := sh1.env[names[0] := value]), assigns, names[1..])
  }

  // The stages in turn, each reading what the one before wrote; the last one's status.
  function RunPipeline<W>(h: Host<W>, sh: State<W>, stages: seq<Stage>, stdin: string, code: Int64): (r: State<W>)
    ensures Kept(sh, r)
    decreases Height(sh), 6, |stages|
  {
    if stages == [] then sh.(last := code)
    else
      var (args, sh1) := ExpandAll(h, sh, stages[0].args);
      if args == [] then RunPipeline(h, sh1, stages[1..], stdin, code)
      else
        var (out, code', sh2) := RunCommand(h, sh1, args, stdin);
        if |stages| == 1 then Emit(h, sh2, stages[0], out).(last := code')
        else RunPipeline(h, sh2, stages[1..], out, code')
  }

  function RunCommand<W>(h: Host<W>, sh: State<W>, args: seq<string>, stdin: string): (r: (string, Int64, State<W>))
    requires args != []
    ensures Kept(sh, r.2)
    decreases Height(sh), 5, 0
  {
    Act(h, sh, Invoke(h, sh, args, stdin))
  }

  // Its output goes straight to the terminal; without arguments there is nothing to run.
  function RunInteractive<W>(h: Host<W>, sh: State<W>, args: seq<string>): (r: (Int64, State<W>))
    ensures Kept(sh, r.1)
    decreases Height(sh), 5, 0
  {
    if args == [] then (0, sh)
    else
      var (_, code, sh1) := Act(h, sh, InvokeInteractive(h, sh, args));
      (code, sh1)
  }

  function Act<W>(h: Host<W>, sh: State<W>, b: Behaviour<W>): (r: (string, Int64, State<W>))
    ensures Kept(sh, r.2)
    decreases Height(sh), 4, 0
  {
    match b
    case Done(out, code, e) => (out, code, ApplyEffect(sh, e))
    case Reenter(line, e, out, status) =>
      var sh1 := RunLine(h, ApplyEffect(sh, e), line);
      (out, if status.Some? then status.value else sh1.last, sh1)
  }

  function ExpandAll<W>(h: Host<W>, sh: State<W>, words: seq<string>): (r: (seq<string>, State<W>))
    ensures Kept(sh, r.1) && |r.0| == |words|
    decreases Height(sh), 5, |words|
  {
    if words == [] then ([], sh)
    else
      var (w, sh1) := Expand(h, sh, words[0]);
      var (ws, sh2) := ExpandAll(h, sh1, words[1..]);
      ([w] + ws, sh2)
  }

  // What the text at the start of `s` expands to, how far it reaches, and the state.
  function ExpandItem<W>(h: Host<W>, sh: State<W>, s: string): (r: (string, nat, State<W>))
    requires s != ""
    ensures r.1 > 0
    ensures Kept(sh, r.2)
    ensures sh.execDepth >= 1 ==> |r.0| <= 10 * (if r.1 <= |s| then r.1 else |s|) + sh.expandBudget - r.2.expandBudget
    decreases Height(sh), 3, 0
  {
    if s[0] == '`' then
      var n := Until(s[1..], '`');
      var (out, sh1) := CmdSub(h, sh, s[1..][..n]);
      (out, n + 2, sh1)
    else if s[0] != '$' then ([s[0]], 1, sh)
    else if NextIs(s, 1, '$') then
      ItoaLength(SHELL_PID);
      (Itoa(SHELL_PID), 2, sh)
    else if NextIs(s, 1, '(') && NextIs(s, 2, '(') then
      var n := BeforeClose(s[3..], 2);
      var value := Arith.EvalArith(sh.env, s[3..][..n]);
      ItoaLength(value);
      (Itoa(value), n + 5, sh)
    else if NextIs(s, 1, '(') then
      var n := BeforeClose(s[2..], 1);
      var (out, sh1) := CmdSub(h, sh, s[2..][..n]);
      (out, n + 3, sh1)
    else if NextIs(s, 1, '?') then
      ItoaLength(sh.last);
      (Itoa(sh.last), 2, sh)
    else if NextIs(s, 1, '{') && Until(s[2..], '}') < |s[2..]| then
      var n := Until(s[2..], '}');
      var (out, sh1) := Take(sh, Arith.Getenv(sh.env, s[2..][..n]));
      (out, n + 3, sh1)
    else
      var n := Arith.Span(s[1..], Arith.IsWordChar);
      if n == 0 then ("$", 1, sh)
      else
        var (out, sh1) := Take(sh, Arith.Getenv(sh.env, s[1..][..n]));
        (out, n + 1, sh1)
  }

  // Never more than ten characters for each one written, plus what the budget paid for.
  function Expand<W>(h: Host<W>, sh: State<W>, s: string): (r: (string, State<W>))
    ensures Kept(sh, r.1)
    ensures sh.execDepth >= 1 ==> |r.0| <= 10 * |s| + sh.expandBudget - r.1.expandBudget
    decreases Height(sh), 4, |s|
  {
    if s == "" then ("", sh)
    else
      var (out, n, sh1) := ExpandItem(h, sh, s);
      var (rest, sh2) := Expand(h, sh1, After(s, n));
      (out + rest, sh2)
  }

  function CmdSub<W>(h: Host<W>, sh: State<W>, inner: string): (r: (string, State<W>))
    ensures Kept(sh, r.1)
    ensures sh.execDepth >= 1 ==> |r.0| <= sh.expandBudget - r.1.expandBudget
    decreases Height(sh), 2, 0
  {
    var sh1 := sh.(subCount := sh.subCount + 1);
    if sh1.subCount > MAX_CMD_SUBS || sh1.expandBudget <= 0 then ("", sh1)
    else
      var (out, sh2) := RunCaptured(h, sh1.(subsRun := sh1.subsRun + 1), inner);
      FoldedLength(TrimRight(TrimLeft(out)));
      (Folded(out), sh2)
  }

  function RunCaptured<W>(h: Host<W>, sh: State<W>, line: string): (r: (string, State<W>))
    ensures Kept(sh, r.1)
    ensures sh.execDepth >= 1 ==> |r.0| <= sh.expandBudget - r.1.expandBudget
    decreases Height(sh), 1, 0
  {
    if sh.execDepth >= MAX_EXEC_DEPTH then ("", sh)
    else
      var sh1 := RunLine(h, sh.(capture := Some("")), line);
      (sh1.capture.value, sh1.(capture := sh.capture))
  }
}
