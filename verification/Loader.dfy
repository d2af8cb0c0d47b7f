// The echo-loader: a file built by many `echo -ne '\xHH...' >> f` lines ends up holding
// exactly the bytes spelled, in whichever way, through the parser, expansion, echo,
// redirection and overlay.
module Loader {
  import opened Basics
  import opened Parse
  import opened Lists
  import opened Shell
  import opened Echo
  import ParseLaws
  import ShellLaws
  import Paths
  import Vfs

  // A word that needs no quoting.
  predicate BareWord(w: string) {
    w != "" && forall i :: 0 <= i < |w| ==> w[i] !in " \t\n\r()'\"|&;><$`"
  }

  // A payload that single quotes keep together and that is neither a flag nor a bracket.
  predicate Typed(chunk: seq<Escape>) {
    var text := Text(chunk);
    Spelled(chunk) && '\'' !in text && ShellLaws.Plain(text) && !IsFlag(text) && !IsGrouping(text)
  }

  function LoaderLine(chunk: seq<Escape>, f: string): string {
    "echo -ne '" + Text(chunk) + "' >> " + f
  }

  function LoaderStage(chunk: seq<Escape>, f: string): Stage {
    Stage(["echo", "-ne", Text(chunk)], map[], false, f, true)
  }

  // ---- the line parses as one stage ----

  lemma ReadBareThen(w: string, rest: string)
    requires BareWord(w)
    ensures Tokens(w + (" " + rest), "", false) == [Word(w)] + Tokens(rest, "", false)
  {
    ParseLaws.ReadBare(w, " " + rest, "", false);
    assert "" + w == w;
    SpaceEnds(w, rest);
  }

  lemma SpaceEnds(w: string, rest: string)
    ensures Tokens(" " + rest, w, true) == [Word(w)] + Tokens(rest, "", false)
  {
    var s := " " + rest;
    TokensStep(s, w, true, Turn([Word(w)], "", false, 1));
    assert s[1..] == rest;
  }

  lemma RedirectTokens(f: string)
    requires BareWord(f)
    ensures Tokens(">>" + (" " + f), "", false) == [Op(">>"), Word(f)]
  {
    assert RenderToken(Op(">>")) + f == ">>" + (" " + f);
    ReadOperator(">>", f);
    assert f + "" == f && "" + f == f;
    ParseLaws.ReadBare(f, "", "", false);
  }

  // The quoted payload and the redirect behind it.
  function Payload(spelled: string, f: string): string {
    ['\''] + spelled + ['\''] + (" " + (">>" + (" " + f)))
  }

  lemma QuotedThen(spelled: string, rest: string)
    requires '\'' !in spelled
    ensures Tokens(['\''] + spelled + ['\''] + (" " + rest), "", false) == [Word(spelled)] + Tokens(rest, "", false)
  {
    ReadQuoted('\'', spelled, " " + rest, "", false);
    assert "" + spelled == spelled;
    SpaceEnds(spelled, rest);
  }

  lemma PayloadTokens(spelled: string, f: string)
    requires '\'' !in spelled && BareWord(f)
    ensures Tokens(Payload(spelled, f), "", false) == [Word(spelled)] + [Op(">>"), Word(f)]
  {
    QuotedThen(spelled, ">>" + (" " + f));
    RedirectTokens(f);
  }

  lemma LoaderText(spelled: string, f: string)
    ensures "echo -ne '" + spelled + "' >> " + f == "echo" + (" " + ("-ne" + (" " + Payload(spelled, f))))
  {
    assert "echo -ne '" == "echo" + (" " + ("-ne" + (" " + ['\''])));
    assert "' >> " == ['\''] + (" " + (">>" + " "));
  }

  lemma BareOnes()
    ensures BareWord("echo") && BareWord("-ne")
  {}

  lemma TwoWordsThen(a: string, b: string, rest: string, toks: seq<Token>)
    requires BareWord(a) && BareWord(b) && Tokens(rest, "", false) == toks
    ensures Tokens(a + (" " + (b + (" " + rest))), "", false) == [Word(a)] + ([Word(b)] + toks)
  {
    ReadBareThen(b, rest);
    ReadBareThen(a, b + (" " + rest));
  }

  lemma LoaderTokens(chunk: seq<Escape>, f: string)
    requires '\'' !in Text(chunk) && BareWord(f)
    ensures Tokenize(LoaderLine(chunk, f))
         == [Word("echo")] + ([Word("-ne")] + ([Word(Text(chunk))] + [Op(">>"), Word(f)]))
  {
    var spelled := Text(chunk);
    LoaderText(spelled, f);
    PayloadTokens(spelled, f);
    BareOnes();
    TwoWordsThen("echo", "-ne", Payload(spelled, f), [Word(spelled)] + [Op(">>"), Word(f)]);
  }

  lemma FiveTokens(spelled: string, f: string)
    ensures [Word("echo")] + ([Word("-ne")] + ([Word(spelled)] + [Op(">>"), Word(f)]))
         == [Word("echo"), Word("-ne"), Word(spelled), Op(">>"), Word(f)]
  {}

  lemma LoaderParses(chunk: seq<Escape>, f: string)
    requires Typed(chunk) && BareWord(f) && f != "/dev/null"
    ensures ParseLine(LoaderLine(chunk, f)) == [Statement([LoaderStage(chunk, f)], End)]
  {
    LoaderTokens(chunk, f);
    FiveTokens(Text(chunk), f);
    LoaderStatement(Text(chunk), f);
  }

  lemma LoaderArgs(spelled: string)
    ensures Words(["echo", "-ne", spelled]) == [Word("echo"), Word("-ne"), Word(spelled)]
    ensures SplitAssign("echo").None?
  {
    var args := ["echo", "-ne", spelled];
    assert args[1..] == ["-ne", spelled] && args[1..][1..] == [spelled] && args[1..][1..][1..] == [];
    assert Words([spelled]) == [Word(spelled)] + Words([]);
    assert Words(["-ne", spelled]) == [Word("-ne")] + Words([spelled]);
    assert Until("echo", '=') == 1 + Until("cho", '=') == 2 + Until("ho", '=') == 3 + Until("o", '=') == 4;
  }

  lemma StageEnds(stg: Stage)
    requires stg.args != []
    ensures ParseTokens([], [], stg) == [Statement([stg], End)]
  {
    assert FinishStage([], stg) == [stg];
  }

  lemma LoaderStatement(spelled: string, f: string)
    requires f != "/dev/null" && !IsGrouping(spelled)
    ensures ParseTokens([Word("echo"), Word("-ne"), Word(spelled), Op(">>"), Word(f)], [], EMPTY)
         == [Statement([Stage(["echo", "-ne", spelled], map[], false, f, true)], End)]
  {
    var args := ["echo", "-ne", spelled];
    var redirect := [Op(">>"), Word(f)];
    LoaderArgs(spelled);
    ReadArgs(args, EMPTY, redirect, []);
    assert [] + args == args;
    ReadRedirect(">>", f, EMPTY.(args := args), [], []);
    assert redirect + [] == redirect;
    StageEnds(Stage(args, map[], false, f, true));
    assert Words(args) + redirect == [Word("echo"), Word("-ne"), Word(spelled), Op(">>"), Word(f)];
  }

  // ---- the line appends its bytes ----

  // `echo` is the echo command, and it touches nothing.
  ghost predicate EchoHost<W(!new)>(h: Host<W>) {
    forall args: seq<string>, stdin: string, sh: State<W> :: args != [] && args[0] == "echo" ==>
      h.command(args, stdin, sh) == Done(EchoOutput(args), 0, Effect(sh.env, sh.fs, sh.quit, sh.term, sh.world))
  }

  ghost predicate PoolHasRoom<W(!new)>(h: Host<W>) {
    forall sh: State<W> :: h.granted(sh)
  }

  function OldContent(fs: Vfs.State, f: string): string {
    var prior := Vfs.ReadFile(fs, f);
    if prior.Ok? then prior.value else ""
  }

  lemma EchoSpelled(chunk: seq<Escape>)
    requires Typed(chunk)
    ensures EchoOutput(["echo", "-ne", Text(chunk)]) == Bytes(chunk)
  {
    var spelled := Text(chunk);
    var args := ["echo", "-ne", spelled];
    assert args[1..] == ["-ne", spelled] && args[1..][1..] == [spelled];
    assert EchoRest(["-ne", spelled], true, false) == EchoRest([spelled], false, true);
    DecodeOfSpelled(chunk);
    assert Bytes(chunk) + "" == Bytes(chunk);
  }

  // What the redirection does to the file system.
  function Appended<W>(h: Host<W>, sh: State<W>, f: string, out: string): State<W> {
    Emit(h, sh, Stage([], map[], false, f, true), out)
  }

  // A single stage whose words stand for themselves and whose command touches nothing.
  lemma OneStage<W>(h: Host<W>, sh: State<W>, stg: Stage, out: string)
    requires stg.args != [] && ExpandAll(h, sh, stg.args) == (stg.args, sh)
    requires RunCommand(h, sh, stg.args, "") == (out, 0, sh)
    ensures RunPipeline(h, sh, [stg], "", 0) == Emit(h, sh, stg, out).(last := 0)
  {
  }

  lemma LoneStage<W>(h: Host<W>, sh: State<W>, stg: Stage)
    requires stg.args != [] && ExpandAll(h, sh, stg.args) == (stg.args, sh) && !IsInteractive(stg.args[0])
    ensures RunStatement(h, sh, Statement([stg], End)) == RunPipeline(h, sh, [stg], "", 0)
  {
    var st := Statement([stg], End);
    assert RunStatement(h, sh, st) == RunLone(h, sh, st.stages[0]);
  }

  lemma LoaderStageRuns<W(!new)>(h: Host<W>, sh: State<W>, chunk: seq<Escape>, f: string)
    requires EchoHost(h) && Typed(chunk) && f != ""
    ensures RunStatement(h, sh, Statement([LoaderStage(chunk, f)], End)) == Appended(h, sh, f, Bytes(chunk)).(last := 0)
  {
    var stg := LoaderStage(chunk, f);
    LoaderWords(h, sh, chunk);
    LoaderCommand(h, sh, chunk);
    LoneStage(h, sh, stg);
    OneStage(h, sh, stg, Bytes(chunk));
    EmitIgnoresArgs(h, sh, stg, Bytes(chunk));
  }

  lemma LoaderWords<W>(h: Host<W>, sh: State<W>, chunk: seq<Escape>)
    requires Typed(chunk)
    ensures ExpandAll(h, sh, ["echo", "-ne", Text(chunk)]) == (["echo", "-ne", Text(chunk)], sh)
  {
    var words := ["echo", "-ne", Text(chunk)];
    forall w | w in words ensures ShellLaws.Plain(w) {}
    ShellLaws.PlainWordsAreKept(h, sh, words);
  }

  lemma LoaderCommand<W(!new)>(h: Host<W>, sh: State<W>, chunk: seq<Escape>)
    requires EchoHost(h) && Typed(chunk)
    ensures RunCommand(h, sh, ["echo", "-ne", Text(chunk)], "") == (Bytes(chunk), 0, sh)
  {
    EchoSpelled(chunk);
    assert ApplyEffect(sh, Effect(sh.env, sh.fs, sh.quit, sh.term, sh.world)) == sh;
  }

  lemma EmitIgnoresArgs<W>(h: Host<W>, sh: State<W>, stg: Stage, out: string)
    ensures Emit(h, sh, stg, out) == Emit(h, sh, stg.(args := [], assigns := map[]), out)
  {
  }

  lemma LoaderLineRuns<W(!new)>(h: Host<W>, sh: State<W>, chunk: seq<Escape>, f: string)
    requires EchoHost(h) && Typed(chunk) && BareWord(f) && f != "/dev/null"
    requires sh.execDepth == 0
    ensures RunLine(h, sh, LoaderLine(chunk, f))
         == Appended(h, Refill(sh).(execDepth := 1), f, Bytes(chunk)).(last := 0, execDepth := 0)
  {
    var st := Statement([LoaderStage(chunk, f)], End);
    LoaderParses(chunk, f);
    LoaderStageRuns(h, Refill(sh).(execDepth := 1), chunk, f);
    OneStatement(h, Refill(sh), st);
  }

  lemma OneStatement<W>(h: Host<W>, sh: State<W>, st: Statement)
    requires sh.execDepth == 0
    ensures RunParsed(h, sh, [st]) == RunStatement(h, sh.(execDepth := 1), st).(execDepth := 0)
  {
    var sh1 := RunStatement(h, sh.(execDepth := 1), st);
    assert [st][1..] == [];
    assert RunStatements(h, sh1, [], NextRun(st.chain, sh1.last)) == sh1;
    assert RunStatements(h, sh.(execDepth := 1), [st], true) == sh1;
  }

  // Writes of up to `total` bytes to `abs` pass every check of the overlay.
  predicate Room(fs: Vfs.State, abs: Paths.Path, total: nat) {
    && abs != []
    && Vfs.Lookup(fs, Paths.Parent(abs), true, 0).Ok?
    && Vfs.Lookup(fs, Paths.Parent(abs), true, 0).value.Dir?
    && (Vfs.Lookup(fs, abs, false, 0).Ok? ==> !Vfs.Lookup(fs, abs, false, 0).value.Dir?)
    && total <= Vfs.MAX_OVERLAY_FILE_BYTES
    && fs.bytes - Vfs.OverlayLen(fs, abs) + total <= Vfs.MAX_OVERLAY_BYTES
    && (abs in fs.overlay || Vfs.Entries(fs) < Vfs.MAX_OVERLAY_ENTRIES)
  }

  lemma RoomRemains(fs: Vfs.State, p: string, content: string, now: int, total: nat)
    requires Room(fs, Vfs.Resolve(fs, p), total) && |content| <= total
    ensures var (fs', status) := Vfs.WriteFile(fs, p, content, now, true);
            status.Success? && Room(fs', Vfs.Resolve(fs, p), total) && fs'.cwd == fs.cwd
  {
    var abs := Vfs.Resolve(fs, p);
    var fs' := Vfs.WriteFile(fs, p, content, now, true).0;
    var node := Vfs.NewFile(abs, content, now);
    assert Paths.Parent(abs) + [Paths.Base(abs)] == abs;
    Vfs.WayIsStable(fs, fs', Paths.Parent(abs), Paths.Base(abs), 0);
    Vfs.InstalledIsVisible(fs, fs', abs, node, false);
  }

  lemma AppendKeeps<W(!new)>(h: Host<W>, sh: State<W>, f: string, chunk: string, total: nat)
    requires PoolHasRoom(h) && f != "" && Paths.Clean(sh.fs.cwd)
    requires Room(sh.fs, Vfs.Resolve(sh.fs, f), total) && |OldContent(sh.fs, f)| + |chunk| <= total
    ensures var r := Appended(h, sh, f, chunk);
            && Vfs.ReadFile(r.fs, f) == Vfs.Ok(OldContent(sh.fs, f) + chunk)
            && Room(r.fs, Vfs.Resolve(r.fs, f), total) && r.fs.cwd == sh.fs.cwd
            && r == sh.(fs := r.fs)
  {
    var abs := Vfs.Resolve(sh.fs, f);
    var path := Paths.Show(abs);
    Paths.AgainstIsClean(sh.fs.cwd, f);
    Paths.ShowIsFixed(sh.fs.cwd, abs);
    assert Vfs.Resolve(sh.fs, path) == abs;
    var prior := OldContent(sh.fs, f);
    assert prior == "" ==> prior + chunk == chunk;
    RoomRemains(sh.fs, path, prior + chunk, h.now(sh), total);
    Vfs.ReadAfterWrite(sh.fs, path, prior + chunk, h.now(sh), true);
  }

  // `>` in place of `>>`: the file holds the output and nothing else.
  lemma OverwriteReplaces<W(!new)>(h: Host<W>, sh: State<W>, f: string, out: string)
    requires PoolHasRoom(h) && f != "" && Paths.Clean(sh.fs.cwd)
    requires Room(sh.fs, Vfs.Resolve(sh.fs, f), |out|)
    ensures var r := Emit(h, sh, Stage([], map[], false, f, false), out);
            Vfs.ReadFile(r.fs, f) == Vfs.Ok(out) && r == sh.(fs := r.fs)
  {
    var path := Paths.Show(Vfs.Resolve(sh.fs, f));
    Paths.AgainstIsClean(sh.fs.cwd, f);
    Paths.ShowIsFixed(sh.fs.cwd, Vfs.Resolve(sh.fs, f));
    RoomRemains(sh.fs, path, out, h.now(sh), |out|);
    Vfs.ReadAfterWrite(sh.fs, path, out, h.now(sh), true);
  }

  // ---- the whole loader ----

  function RunLoader<W>(h: Host<W>, sh: State<W>, chunks: seq<seq<Escape>>, f: string): State<W>
    decreases |chunks|
  {
    if chunks == [] then sh
    else RunLoader(h, RunLine(h, sh, LoaderLine(chunks[0], f)), chunks[1..], f)
  }

  // One line of it.
  lemma LoaderStep<W(!new)>(h: Host<W>, sh: State<W>, c: seq<Escape>, f: string, total: nat)
    requires EchoHost(h) && PoolHasRoom(h) && Typed(c)
    requires BareWord(f) && f != "/dev/null" && Paths.Clean(sh.fs.cwd)
    requires sh.execDepth == 0
    requires Room(sh.fs, Vfs.Resolve(sh.fs, f), total) && |OldContent(sh.fs, f)| + |Bytes(c)| <= total
    ensures var r := RunLine(h, sh, LoaderLine(c, f));
            && Vfs.ReadFile(r.fs, f) == Vfs.Ok(OldContent(sh.fs, f) + Bytes(c))
            && Room(r.fs, Vfs.Resolve(r.fs, f), total) && r.fs.cwd == sh.fs.cwd && r.execDepth == 0
  {
    LoaderLineRuns(h, sh, c, f);
    AppendKeeps(h, Refill(sh).(execDepth := 1), f, Bytes(c), total);
  }

  lemma FlattenStep(prior: string, chunks: seq<seq<Escape>>)
    requires chunks != []
    ensures prior + Bytes(Flatten(chunks)) == prior + Bytes(chunks[0]) + Bytes(Flatten(chunks[1..]))
    ensures |Bytes(Flatten(chunks))| == |Bytes(chunks[0])| + |Bytes(Flatten(chunks[1..]))|
  {
    BytesConcat(chunks[0], Flatten(chunks[1..]));
    ConcatAssociates(prior, Bytes(chunks[0]), Bytes(Flatten(chunks[1..])));
  }

  // Further lines go on where the file ends.
  lemma {:induction false} LoaderContinues<W(!new)>(h: Host<W>, sh: State<W>, chunks: seq<seq<Escape>>, f: string,
      prior: string, total: nat)
    requires EchoHost(h) && PoolHasRoom(h)
    requires BareWord(f) && f != "/dev/null" && Paths.Clean(sh.fs.cwd)
    requires sh.execDepth == 0
    requires forall c :: c in chunks ==> Typed(c)
    requires Room(sh.fs, Vfs.Resolve(sh.fs, f), total) && Vfs.ReadFile(sh.fs, f) == Vfs.Ok(prior)
    requires |prior| + |Bytes(Flatten(chunks))| <= total
    ensures Vfs.ReadFile(RunLoader(h, sh, chunks, f).fs, f) == Vfs.Ok(prior + Bytes(Flatten(chunks)))
    decreases |chunks|
  {
    if chunks == [] {
      assert prior + "" == prior;
    } else {
      var c, rest := chunks[0], chunks[1..];
      FlattenStep(prior, chunks);
      LoaderStep(h, sh, c, f, total);
      LoaderContinues(h, RunLine(h, sh, LoaderLine(c, f)), rest, f, prior + Bytes(c), total);
    }
  }

  // For any bytes in any chunks, however spelled, one line per chunk leaves the file with
  // its old content followed by exactly those bytes, while the budgets allow the final size.
  lemma LoaderRebuilds<W(!new)>(h: Host<W>, sh: State<W>, chunks: seq<seq<Escape>>, f: string, total: nat)
    requires EchoHost(h) && PoolHasRoom(h)
    requires BareWord(f) && f != "/dev/null" && Paths.Clean(sh.fs.cwd)
    requires sh.execDepth == 0
    requires chunks != [] && forall c :: c in chunks ==> Typed(c)
    requires Room(sh.fs, Vfs.Resolve(sh.fs, f), total)
    requires |OldContent(sh.fs, f)| + |Bytes(Flatten(chunks))| <= total
    ensures Vfs.ReadFile(RunLoader(h, sh, chunks, f).fs, f)
         == Vfs.Ok(OldContent(sh.fs, f) + Bytes(Flatten(chunks)))
  {
    var c, prior := chunks[0], OldContent(sh.fs, f);
    FlattenStep(prior, chunks);
    LoaderStep(h, sh, c, f, total);
    LoaderContinues(h, RunLine(h, sh, LoaderLine(c, f)), chunks[1..], f, prior + Bytes(c), total);
  }

  lemma {:induction false} SpellIsPlain(bytes: string)
    requires IsBytes(bytes)
    ensures '\'' !in Text(Spell(bytes)) && ShellLaws.Plain(Text(Spell(bytes)))
    ensures Text(Spell(bytes)) != "" ==> Text(Spell(bytes))[0] == '\\'
  {
    if bytes != "" {
      SpellIsPlain(bytes[1..]);
      var b := bytes[0] as int;
      NibbleReads(Nibble(b / 16, false));
      NibbleReads(Nibble(b % 16, false));
      assert Spell(bytes)[1..] == Spell(bytes[1..]);
    }
  }

  // Any bytes at all can be typed as a payload.
  lemma SpellIsTyped(bytes: string)
    requires IsBytes(bytes)
    ensures Typed(Spell(bytes)) && Bytes(Spell(bytes)) == bytes
  {
    SpellIsPlain(bytes);
    SpellIsSpelled(bytes);
  }
}
