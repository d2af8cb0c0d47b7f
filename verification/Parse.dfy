// The command-line parser: words and operators, then chained statements of pipeline
// stages; and a printer it inverts.
module Parse {
  import opened Basics

  datatype Token = Word(val: string) | Op(val: string)

  datatype Stage = Stage(args: seq<string>, assigns: map<string, string>, outNull: bool, outFile: string, appendT: bool)

  // The operator that follows a statement, if any.
  datatype Chain = End | Seq | And | Or

  datatype Statement = Statement(stages: seq<Stage>, chain: Chain)

  const EMPTY := Stage([], map[], false, "", false)

  // ---- words and operators ----

  function Flush(cur: string, has: bool): seq<Token> {
    if has then [Word(cur)] else []
  }

  // Characters before the first `c`, or all of them.
  function Until(s: string, c: char): (n: nat)
    ensures n <= |s| && (n < |s| ==> s[n] == c)
  {
    if s == "" || s[0] == c then 0 else 1 + Until(s[1..], c)
  }

  // Characters up to and including the parenthesis that closes `depth` open ones.
  function ToClose(s: string, depth: nat): (n: nat)
    ensures n <= |s|
  {
    if s == "" || depth == 0 then 0
    else 1 + ToClose(s[1..], if s[0] == '(' then depth + 1 else if s[0] == ')' then depth - 1 else depth)
  }

  function After(s: string, n: nat): string {
    if n <= |s| then s[n..] else ""
  }

  predicate NextIs(s: string, i: nat, c: char) {
    i < |s| && s[i] == c
  }

  // What one turn of the tokenizer at the start of `s` does to the word being built,
  // the tokens it emits first, and how far it moves.
  datatype Turn = Turn(out: seq<Token>, cur: string, has: bool, skip: nat)

  // The turns that only extend the word being built.
  predicate ExtendsWord(s: string) {
    && s != ""
    && s[0] !in " \t\n\r;()|&><"
    && !(s[0] == '2' && 2 < |s| && s[1] == '>')
  }

  function TurnAt(s: string, cur: string, has: bool): (t: Turn)
    requires s != ""
    ensures t.skip > 0
  {
    var c := s[0];
    var out := Flush(cur, has);
    if c == ' ' || c == '\t' then Turn(out, "", false, 1)
    else if c == '\n' || c == '\r' then Turn(out + [Op(";")], "", false, 1)
    else if c == '(' || c == ')' then Turn(out + [Word([c])], "", false, 1)
    else if c == '\'' || c == '"' then
      var n := Until(s[1..], c);
      Turn([], cur + s[1..][..n], true, n + 2)
    else if c == '|' then
      if NextIs(s, 1, '|') then Turn(out + [Op("||")], "", false, 2) else Turn(out + [Op("|")], "", false, 1)
    else if c == '&' then
      if NextIs(s, 1, '&') then Turn(out + [Op("&&")], "", false, 2)
      else if NextIs(s, 1, '>') then Turn(out + [Op("&>")], "", false, 2)
      else Turn(out, "", false, 1)
    else if c == ';' then Turn(out + [Op(";")], "", false, 1)
    else if c == '>' then
      if NextIs(s, 1, '>') then Turn(out + [Op(">>")], "", false, 2) else Turn(out + [Op(">")], "", false, 1)
    else if c == '<' then Turn(out + [Op("<")], "", false, 1)
    else if c == '2' && 2 < |s| && s[1] == '>' then
      if NextIs(s, 2, '&') && NextIs(s, 3, '1') then Turn(out + [Op("2>&1")], "", false, 4)
      else Turn(out + [Op("2>")], "", false, 2)
    else if c == '$' && NextIs(s, 1, '(') then
      var n := ToClose(s[2..], 1);
      Turn([], cur + s[..n + 2], true, n + 2)
    else if c == '`' then
      var n := Until(s[1..], '`');
      if n + 1 < |s| then Turn([], cur + s[..n + 2], true, n + 2) else Turn([], cur + s, true, |s|)
    else Turn([], cur + [c], true, 1)
  }

  function Tokens(s: string, cur: string, has: bool): seq<Token>
    decreases |s|
  {
    if s == "" then Flush(cur, has)
    else
      var t := TurnAt(s, cur, has);
      t.out + Tokens(After(s, t.skip), t.cur, t.has)
  }

  function Tokenize(line: string): seq<Token> {
    Tokens(line, "", false)
  }

  // ---- statements ----

  predicate IsNameChar(c: char, first: bool) {
    c == '_' || 'A' <= c <= 'Z' || 'a' <= c <= 'z' || (!first && '0' <= c <= '9')
  }

  predicate IsName(s: string) {
    s != "" && forall i :: 0 <= i < |s| ==> IsNameChar(s[i], i == 0)
  }

  // NAME=value
  function SplitAssign(s: string): Option<(string, string)> {
    var eq := Until(s, '=');
    if eq == |s| || !IsName(s[..eq]) then None else Some((s[..eq], s[eq + 1..]))
  }

  predicate IsGrouping(w: string) {
    w == "(" || w == ")" || w == "{" || w == "}"
  }

  function FinishStage(stages: seq<Stage>, stg: Stage): seq<Stage> {
    if stg.args != [] || stg.assigns != map[] then stages + [stg] else stages
  }

  function FinishStatement(stages: seq<Stage>, stg: Stage, chain: Chain): seq<Statement> {
    var all := FinishStage(stages, stg);
    if all != [] then [Statement(all, chain)] else []
  }

  function Redirect(stg: Stage, op: string, target: string): Stage {
    if target == "/dev/null" then stg.(outNull := true) else stg.(outFile := target, appendT := op == ">>")
  }

  function AddWord(stg: Stage, w: string): Stage {
    if IsGrouping(w) then stg
    else if stg.args == [] && SplitAssign(w).Some? then
      var (k, v) := SplitAssign(w).value;
      stg.(assigns := stg.assigns[k := v])
    else stg.(args := stg.args + [w])
  }

  function ChainOf(op: string): Option<Chain> {
    if op == ";" then Some(Seq) else if op == "&&" then Some(And) else if op == "||" then Some(Or) else None
  }

  function ParseTokens(toks: seq<Token>, stages: seq<Stage>, stg: Stage): seq<Statement>
    decreases |toks|
  {
    if toks == [] then FinishStatement(stages, stg, End)
    else
      var t := toks[0];
      if t.Word? then ParseTokens(toks[1..], stages, AddWord(stg, t.val))
      else if t.val == "|" then ParseTokens(toks[1..], FinishStage(stages, stg), EMPTY)
      else if ChainOf(t.val).Some? then
        FinishStatement(stages, stg, ChainOf(t.val).value) + ParseTokens(toks[1..], [], EMPTY)
      else if t.val == ">" || t.val == ">>" || t.val == "&>" then
        if |toks| > 1 then ParseTokens(toks[2..], stages, Redirect(stg, t.val, toks[1].val))
        else ParseTokens(toks[1..], stages, stg)
      else if (t.val == "2>" || t.val == "<") && |toks| > 1 then ParseTokens(toks[2..], stages, stg)
      else ParseTokens(toks[1..], stages, stg)
  }

  function ParseLine(line: string): seq<Statement> {
    ParseTokens(Tokenize(line), [], EMPTY)
  }

  // ---- printing tokens ----

  // Inside single quotes everything stands for itself but the quote, which goes in
  // double quotes of its own.
  function Escape(w: string): string {
    if w == "" then "" else (if w[0] == '\'' then "'\"'\"'" else [w[0]]) + Escape(w[1..])
  }

  function Quote(w: string): string {
    "'" + Escape(w) + "'"
  }

  predicate IsOperator(op: string) {
    op in {";", "&&", "||", "|", ">", ">>", "2>", "2>&1", "&>", "<"}
  }

  function RenderToken(t: Token): string {
    (if t.Word? then Quote(t.val) else t.val) + " "
  }

  function RenderTokens(toks: seq<Token>): string {
    if toks == [] then "" else RenderToken(toks[0]) + RenderTokens(toks[1..])
  }

  ghost predicate Printable(toks: seq<Token>) {
    forall t :: t in toks ==> t.Op? ==> IsOperator(t.val)
  }

  // ---- reading printed tokens ----

  lemma {:induction false} UntilExact(a: string, c: char, b: string)
    requires c !in a
    ensures Until(a + [c] + b, c) == |a|
    decreases |a|
  {
    var s := a + [c] + b;
    if a != "" {
      assert a[0] != c;
      assert s[1..] == a[1..] + [c] + b;
      UntilExact(a[1..], c, b);
    }
  }

  // A quoted run is read back whole.
  lemma ReadQuoted(q: char, text: string, rest: string, cur: string, has: bool)
    requires (q == '\'' || q == '"') && q !in text
    ensures Tokens([q] + text + [q] + rest, cur, has) == Tokens(rest, cur + text, true)
  {
    var s := [q] + text + [q] + rest;
    assert s[1..] == text + [q] + rest;
    UntilExact(text, q, rest);
    assert s[1..][..|text|] == text;
    assert s[|text| + 2..] == rest;
    assert TurnAt(s, cur, has) == Turn([], cur + text, true, |text| + 2);
    assert [] + Tokens(rest, cur + text, true) == Tokens(rest, cur + text, true);
  }

  // From inside the quotes: the characters up to the next quote in the word, and on.
  lemma {:induction false} ReadEscaped(w: string, rest: string, cur: string, has: bool, done: string)
    requires '\'' !in done
    ensures Tokens("'" + (done + (Escape(w) + ("'" + rest))), cur, has) == Tokens(rest, cur + done + w, true)
    decreases |w|
  {
    if w == "" {
      assert "'" + (done + (Escape(w) + ("'" + rest))) == ['\''] + done + ['\''] + rest;
      ReadQuoted('\'', done, rest, cur, has);
      assert cur + done + w == cur + done;
    } else if w[0] == '\'' {
      var e := Escape(w[1..]) + ("'" + rest);
      var tail := "'" + ("" + e);
      assert Escape(w) + ("'" + rest) == "'\"'\"'" + e;
      QuoteShape(done, e);
      ReadQuoted('\'', done, ['"'] + ['\''] + ['"'] + tail, cur, has);
      ReadQuoted('"', ['\''], tail, cur + done, true);
      ReadEscaped(w[1..], rest, cur + done + ['\''], true, "");
      WordShape(cur, done, w);
    } else {
      assert done + (Escape(w) + ("'" + rest)) == (done + [w[0]]) + (Escape(w[1..]) + ("'" + rest));
      ReadEscaped(w[1..], rest, cur, has, done + [w[0]]);
      WordShape(cur, done, w);
    }
  }

  // A quote inside: the single quotes close, a double-quoted one follows, they reopen.
  lemma QuoteShape(done: string, e: string)
    ensures "'" + (done + ("'\"'\"'" + e)) == ['\''] + done + ['\''] + (['"'] + ['\''] + ['"'] + ("'" + ("" + e)))
  {
    assert "'\"'\"'" == ['\'', '"', '\'', '"', '\''];
    assert "'\"'\"'" + e == ['\''] + (['"'] + ['\''] + ['"'] + ("'" + ("" + e)));
  }

  lemma WordShape(cur: string, done: string, w: string)
    requires w != ""
    ensures cur + done + [w[0]] + "" + w[1..] == cur + done + w
    ensures cur + (done + [w[0]]) + w[1..] == cur + done + w
  {
  }

  lemma ReadWord(w: string, rest: string)
    ensures Tokens(RenderToken(Word(w)) + rest, "", false) == [Word(w)] + Tokens(rest, "", false)
  {
    var s := " " + rest;
    assert RenderToken(Word(w)) + rest == "'" + ("" + (Escape(w) + ("'" + s)));
    ReadEscaped(w, s, "", false, "");
    assert "" + "" + w == w;
    assert s[1..] == rest;
    assert Tokens(s, w, true) == TurnAt(s, w, true).out + Tokens(rest, "", false);
  }

  lemma ReadOperator(op: string, rest: string)
    requires IsOperator(op)
    ensures Tokens(RenderToken(Op(op)) + rest, "", false) == [Op(op)] + Tokens(rest, "", false)
  {
    var s := op + (" " + rest);
    assert RenderToken(Op(op)) + rest == s;
    assert s[..|op|] == op && s[|op|] == ' ' && s[|op|..] == " " + rest;
    OperatorTurn(op, s);
    TokensStep(s, "", false, Turn([Op(op)], "", false, |op|));
    assert After(s, |op|) == " " + rest;
    ReadBlank(rest);
  }

  lemma TokensStep(s: string, cur: string, has: bool, t: Turn)
    requires s != "" && TurnAt(s, cur, has) == t
    ensures Tokens(s, cur, has) == t.out + Tokens(After(s, t.skip), t.cur, t.has)
  {
  }

  lemma ReadBlank(rest: string)
    ensures Tokens(" " + rest, "", false) == Tokens(rest, "", false)
  {
    var s := " " + rest;
    assert TurnAt(s, "", false) == Turn([], "", false, 1);
    TokensStep(s, "", false, Turn([], "", false, 1));
    assert s[1..] == rest && [] + Tokens(rest, "", false) == Tokens(rest, "", false);
  }

  lemma OperatorTurn(op: string, s: string)
    requires IsOperator(op) && |s| > |op| && s[..|op|] == op && s[|op|] == ' '
    ensures TurnAt(s, "", false) == Turn([Op(op)], "", false, |op|)
  {
    assert forall i :: 0 <= i < |op| ==> s[i] == op[i];
    assert [] + [Op(op)] == [Op(op)];
    if op == ";" {
    } else if op == "&&" {
    } else if op == "||" {
    } else if op == "|" {
    } else if op == ">" {
    } else if op == ">>" {
    } else if op == "2>" {
    } else if op == "2>&1" {
    } else if op == "&>" {
    } else {
    }
  }

  // The tokenizer undoes the printer, for any words and operators.
  lemma {:induction false} TokensOfRender(toks: seq<Token>)
    requires Printable(toks)
    ensures Tokenize(RenderTokens(toks)) == toks
  {
    if toks != [] {
      var rest := RenderTokens(toks[1..]);
      TokensOfRender(toks[1..]);
      match toks[0]
      case Word(w) => ReadWord(w, rest);
      case Op(op) => ReadOperator(op, rest);
    }
  }

  // ---- printing statements ----

  // A map's entries in some order.
  ghost function AssignWords(m: map<string, string>): seq<Token> {
    if m == map[] then []
    else
      var k :| k in m;
      [Word(k + "=" + m[k])] + AssignWords(m - {k})
  }

  function Words(ws: seq<string>): seq<Token> {
    if ws == [] then [] else [Word(ws[0])] + Words(ws[1..])
  }

  function Redirects(stg: Stage): seq<Token> {
    (if stg.outNull then [Op(">"), Word("/dev/null")] else []) +
    (if stg.outFile != "" || stg.appendT then [Op(if stg.appendT then ">>" else ">"), Word(stg.outFile)] else [])
  }

  ghost function StageTokens(stg: Stage): seq<Token> {
    AssignWords(stg.assigns) + Words(stg.args) + Redirects(stg)
  }

  ghost function StagesTokens(stages: seq<Stage>): seq<Token> {
    if stages == [] then []
    else if |stages| == 1 then StageTokens(stages[0])
    else StageTokens(stages[0]) + [Op("|")] + StagesTokens(stages[1..])
  }

  function ChainTokens(chain: Chain): seq<Token> {
    match chain
    case End => []
    case Seq => [Op(";")]
    case And => [Op("&&")]
    case Or => [Op("||")]
  }

  ghost function StatementsTokens(stmts: seq<Statement>): seq<Token> {
    if stmts == [] then []
    else StagesTokens(stmts[0].stages) + ChainTokens(stmts[0].chain) + StatementsTokens(stmts[1..])
  }

  ghost function Render(stmts: seq<Statement>): string {
    RenderTokens(StatementsTokens(stmts))
  }

  // What a parse can yield.
  predicate StageOk(stg: Stage) {
    && (stg.args != [] || stg.assigns != map[])
    && (forall a :: a in stg.args ==> !IsGrouping(a))
    && (stg.args != [] ==> SplitAssign(stg.args[0]).None?)
    && (forall k :: k in stg.assigns ==> IsName(k))
    && stg.outFile != "/dev/null"
  }

  predicate StatementOk(st: Statement) {
    st.stages != [] && forall stg :: stg in st.stages ==> StageOk(stg)
  }

  predicate WellFormed(stmts: seq<Statement>) {
    && (forall st :: st in stmts ==> StatementOk(st))
    && (forall i :: 0 <= i < |stmts| - 1 ==> stmts[i].chain != End)
  }

  // ---- parsing printed statements ----

  lemma SplitAssignExact(k: string, v: string)
    requires IsName(k)
    ensures SplitAssign(k + "=" + v) == Some((k, v)) && !IsGrouping(k + "=" + v)
  {
    var s := k + ['='] + v;
    assert k + "=" + v == s;
    forall i | 0 <= i < |k| ensures k[i] != '=' {
      assert IsNameChar(k[i], i == 0);
    }
    UntilExact(k, '=', v);
    assert s[..|k|] == k && s[|k| + 1..] == v;
    assert |s| >= 2;
  }

  lemma {:induction false} ReadAssigns(m: map<string, string>, base: map<string, string>, rest: seq<Token>,
      stages: seq<Stage>)
    requires forall k :: k in m ==> IsName(k)
    ensures ParseTokens(AssignWords(m) + rest, stages, EMPTY.(assigns := base))
         == ParseTokens(rest, stages, EMPTY.(assigns := base + m))
    decreases m
  {
    if m == map[] {
      assert base + m == base && AssignWords(m) + rest == rest;
    } else {
      var k :| k in m && AssignWords(m) == [Word(k + "=" + m[k])] + AssignWords(m - {k});
      var tail := AssignWords(m - {k}) + rest;
      assert AssignWords(m) + rest == [Word(k + "=" + m[k])] + tail;
      SplitAssignExact(k, m[k]);
      ReadAssigns(m - {k}, base[k := m[k]], rest, stages);
      assert base[k := m[k]] + (m - {k}) == base + m;
      assert ([Word(k + "=" + m[k])] + tail)[1..] == tail;
    }
  }

  lemma {:induction false} ReadArgs(args: seq<string>, stg: Stage, rest: seq<Token>, stages: seq<Stage>)
    requires forall a :: a in args ==> !IsGrouping(a)
    requires args != [] && stg.args == [] ==> SplitAssign(args[0]).None?
    ensures ParseTokens(Words(args) + rest, stages, stg) == ParseTokens(rest, stages, stg.(args := stg.args + args))
    decreases |args|
  {
    if args == [] {
      assert stg.args + args == stg.args && Words(args) + rest == rest;
    } else {
      var tail, more := Words(args[1..]) + rest, args[1..];
      assert Words(args) + rest == [Word(args[0])] + tail;
      assert args[0] in args && forall a :: a in more ==> a in args;
      ReadArg(args[0], stg, tail, stages);
      var stg' := stg.(args := stg.args + [args[0]]);
      assert stg'.args != [];
      ReadArgs(more, stg', rest, stages);
      assert stg'.args + more == stg.args + args;
    }
  }

  lemma ReadArg(w: string, stg: Stage, tail: seq<Token>, stages: seq<Stage>)
    requires !IsGrouping(w) && (stg.args == [] ==> SplitAssign(w).None?)
    ensures ParseTokens([Word(w)] + tail, stages, stg) == ParseTokens(tail, stages, stg.(args := stg.args + [w]))
  {
    assert ([Word(w)] + tail)[1..] == tail;
  }

  lemma ReadRedirect(op: string, target: string, stg: Stage, rest: seq<Token>, stages: seq<Stage>)
    requires op == ">" || op == ">>"
    ensures ParseTokens([Op(op), Word(target)] + rest, stages, stg) == ParseTokens(rest, stages, Redirect(stg, op, target))
  {
    var toks := [Op(op), Word(target)] + rest;
    assert toks[0] == Op(op) && toks[1].val == target && toks[2..] == rest;
  }

  lemma ReadRedirects(stg: Stage, base: Stage, rest: seq<Token>, stages: seq<Stage>)
    requires !base.outNull && base.outFile == "" && !base.appendT && stg.outFile != "/dev/null"
    ensures ParseTokens(Redirects(stg) + rest, stages, base)
         == ParseTokens(rest, stages, base.(outNull := stg.outNull, outFile := stg.outFile, appendT := stg.appendT))
  {
    var file := stg.outFile != "" || stg.appendT;
    var second := if file then [Op(if stg.appendT then ">>" else ">"), Word(stg.outFile)] else [];
    var base' := base.(outNull := stg.outNull);
    if stg.outNull {
      assert Redirects(stg) + rest == [Op(">"), Word("/dev/null")] + (second + rest);
      ReadRedirect(">", "/dev/null", base, second + rest, stages);
    } else {
      assert Redirects(stg) + rest == second + rest;
    }
    if file {
      ReadRedirect(if stg.appendT then ">>" else ">", stg.outFile, base', rest, stages);
    } else {
      assert second + rest == rest;
    }
  }

  lemma ReadStage(stg: Stage, rest: seq<Token>, stages: seq<Stage>)
    requires StageOk(stg)
    ensures ParseTokens(StageTokens(stg) + rest, stages, EMPTY) == ParseTokens(rest, stages, stg)
  {
    var a, w, r := AssignWords(stg.assigns), Words(stg.args), Redirects(stg);
    assert StageTokens(stg) + rest == a + (w + (r + rest));
    ReadAssigns(stg.assigns, map[], w + (r + rest), stages);
    assert map[] + stg.assigns == stg.assigns;
    var s1 := EMPTY.(assigns := stg.assigns);
    ReadArgs(stg.args, s1, r + rest, stages);
    assert [] + stg.args == stg.args;
    ReadRedirects(stg, s1.(args := stg.args), rest, stages);
  }

  // A statement of these stages, then what its chain operator introduces.
  function Completed(stages: seq<Stage>, rest: seq<Token>): seq<Statement>
    requires rest != [] ==> rest[0].Op? && ChainOf(rest[0].val).Some?
  {
    if rest == [] then [Statement(stages, End)]
    else [Statement(stages, ChainOf(rest[0].val).value)] + ParseTokens(rest[1..], [], EMPTY)
  }

  lemma ReadLast(stg: Stage, done: seq<Stage>, rest: seq<Token>)
    requires StageOk(stg)
    requires rest != [] ==> rest[0].Op? && ChainOf(rest[0].val).Some?
    ensures ParseTokens(StageTokens(stg) + rest, done, EMPTY) == Completed(done + [stg], rest)
  {
    ReadStage(stg, rest, done);
  }

  lemma HeadAndTail<T>(a: seq<T>, b: seq<T>)
    requires b != []
    ensures a + [b[0]] + b[1..] == a + b
  {
  }

  lemma {:induction false} ReadStages(todo: seq<Stage>, done: seq<Stage>, rest: seq<Token>)
    requires todo != [] && forall stg :: stg in todo ==> StageOk(stg)
    requires rest != [] ==> rest[0].Op? && ChainOf(rest[0].val).Some?
    ensures ParseTokens(StagesTokens(todo) + rest, done, EMPTY) == Completed(done + todo, rest)
    decreases |todo|
  {
    var stg := todo[0];
    if |todo| == 1 {
      ReadLast(stg, done, rest);
      assert todo == [stg];
    } else {
      var tail := StagesTokens(todo[1..]) + rest;
      PipedTokens(todo, rest);
      ReadPiped(stg, tail, done);
      assert forall s :: s in todo[1..] ==> s in todo;
      ReadStages(todo[1..], done + [stg], rest);
      HeadAndTail(done, todo);
    }
  }

  lemma PipedTokens(todo: seq<Stage>, rest: seq<Token>)
    requires |todo| > 1
    ensures StagesTokens(todo) + rest == StageTokens(todo[0]) + ([Op("|")] + (StagesTokens(todo[1..]) + rest))
  {
    var a, b := StageTokens(todo[0]), StagesTokens(todo[1..]);
    ConcatAssociates(a + [Op("|")], b, rest);
    ConcatAssociates(a, [Op("|")], b + rest);
  }

  lemma ReadPiped(stg: Stage, tail: seq<Token>, done: seq<Stage>)
    requires StageOk(stg)
    ensures ParseTokens(StageTokens(stg) + ([Op("|")] + tail), done, EMPTY) == ParseTokens(tail, done + [stg], EMPTY)
  {
    ReadStage(stg, [Op("|")] + tail, done);
    assert ([Op("|")] + tail)[1..] == tail;
  }

  lemma {:induction false} ReadStatements(stmts: seq<Statement>)
    requires WellFormed(stmts)
    ensures ParseTokens(StatementsTokens(stmts), [], EMPTY) == stmts
    decreases |stmts|
  {
    if stmts != [] {
      var st := stmts[0];
      assert StatementOk(st);
      var rest := ChainTokens(st.chain) + StatementsTokens(stmts[1..]);
      assert StatementsTokens(stmts) == StagesTokens(st.stages) + rest;
      forall i | 0 <= i < |stmts[1..]| - 1 ensures stmts[1..][i].chain != End {
        assert stmts[1..][i] == stmts[i + 1];
      }
      ReadStatements(stmts[1..]);
      if st.chain == End {
        assert |stmts| == 1;
        assert rest == [];
      } else {
        assert rest[1..] == StatementsTokens(stmts[1..]);
      }
      ReadStages(st.stages, [], rest);
      assert [] + st.stages == st.stages;
    }
  }

  // ---- printed statements use known operators only ----

  lemma {:induction false} AssignsPrintable(m: map<string, string>)
    ensures forall t :: t in AssignWords(m) ==> t.Word?
    decreases m
  {
    if m != map[] {
      var k :| k in m && AssignWords(m) == [Word(k + "=" + m[k])] + AssignWords(m - {k});
      AssignsPrintable(m - {k});
    }
  }

  lemma {:induction false} WordsPrintable(ws: seq<string>)
    ensures forall t :: t in Words(ws) ==> t.Word?
  {
    if ws != [] {
      WordsPrintable(ws[1..]);
    }
  }

  lemma {:induction false} StagesPrintable(stages: seq<Stage>)
    ensures Printable(StagesTokens(stages))
  {
    if stages != [] {
      AssignsPrintable(stages[0].assigns);
      WordsPrintable(stages[0].args);
      assert Printable(StageTokens(stages[0]));
      StagesPrintable(stages[1..]);
    }
  }

  lemma {:induction false} StatementsPrintable(stmts: seq<Statement>)
    ensures Printable(StatementsTokens(stmts))
  {
    if stmts != [] {
      StagesPrintable(stmts[0].stages);
      StatementsPrintable(stmts[1..]);
    }
  }

  // Parser and printer are inverse on well-formed statement lists, whatever the words
  // contain: quotes, operators, newlines.
  lemma ParseOfRender(stmts: seq<Statement>)
    requires WellFormed(stmts)
    ensures ParseLine(Render(stmts)) == stmts
  {
    StatementsPrintable(stmts);
    TokensOfRender(StatementsTokens(stmts));
    ReadStatements(stmts);
  }

  // ---- every parse is well formed ----

  // A stage under construction.
  predicate Building(stg: Stage) {
    && (forall a :: a in stg.args ==> !IsGrouping(a))
    && (stg.args != [] ==> SplitAssign(stg.args[0]).None?)
    && (forall k :: k in stg.assigns ==> IsName(k))
    && stg.outFile != "/dev/null"
  }

  lemma AddWordBuilds(stg: Stage, w: string)
    requires Building(stg)
    ensures Building(AddWord(stg, w))
  {
  }

  lemma RedirectBuilds(stg: Stage, op: string, target: string)
    requires Building(stg)
    ensures Building(Redirect(stg, op, target))
  {
  }

  lemma FinishIsOk(stages: seq<Stage>, stg: Stage)
    requires Building(stg) && forall s :: s in stages ==> StageOk(s)
    ensures forall s :: s in FinishStage(stages, stg) ==> StageOk(s)
  {
  }

  lemma {:induction false} ParsedIsOk(toks: seq<Token>, stages: seq<Stage>, stg: Stage)
    requires Building(stg) && forall s :: s in stages ==> StageOk(s)
    ensures WellFormed(ParseTokens(toks, stages, stg))
    decreases |toks|
  {
    if toks != [] {
      var t := toks[0];
      if t.Word? {
        AddWordBuilds(stg, t.val);
        ParsedIsOk(toks[1..], stages, AddWord(stg, t.val));
      } else if t.val == "|" {
        FinishIsOk(stages, stg);
        ParsedIsOk(toks[1..], FinishStage(stages, stg), EMPTY);
      } else if ChainOf(t.val).Some? {
        ParsedIsOk(toks[1..], [], EMPTY);
        ConsIsOk(FinishStatement(stages, stg, ChainOf(t.val).value), ParseTokens(toks[1..], [], EMPTY));
      } else if t.val == ">" || t.val == ">>" || t.val == "&>" {
        if |toks| > 1 {
          RedirectBuilds(stg, t.val, toks[1].val);
          ParsedIsOk(toks[2..], stages, Redirect(stg, t.val, toks[1].val));
        } else {
          ParsedIsOk(toks[1..], stages, stg);
        }
      } else if (t.val == "2>" || t.val == "<") && |toks| > 1 {
        ParsedIsOk(toks[2..], stages, stg);
      } else {
        ParsedIsOk(toks[1..], stages, stg);
      }
    }
  }

  lemma ConsIsOk(first: seq<Statement>, rest: seq<Statement>)
    requires |first| <= 1 && (first != [] ==> StatementOk(first[0]) && first[0].chain != End)
    requires WellFormed(rest)
    ensures WellFormed(first + rest)
  {
    if first == [] {
      assert first + rest == rest;
    }
  }

  lemma ParseIsWellFormed(line: string)
    ensures WellFormed(ParseLine(line))
  {
    ParsedIsOk(Tokenize(line), [], EMPTY);
  }

  // So printing what was parsed loses nothing, for every line there is.
  lemma ReparseIsStable(line: string)
    ensures ParseLine(Render(ParseLine(line))) == ParseLine(line)
  {
    ParseIsWellFormed(line);
    ParseOfRender(ParseLine(line));
  }

  // ---- the loops ----

  lemma TokensTurn(line: string, i: nat, cur: string, has: bool, t: Turn)
    requires i < |line| && TurnAt(line[i..], cur, has) == t
    ensures Tokens(After(line, i), cur, has) == t.out + Tokens(After(line, i + t.skip), t.cur, t.has)
  {
    TokensStep(line[i..], cur, has, t);
    assert After(line[i..], t.skip) == After(line, i + t.skip);
  }

  lemma TokensEnd(line: string, i: nat, cur: string, has: bool)
    requires i >= |line|
    ensures Tokens(After(line, i), cur, has) == Flush(cur, has)
  {
    assert After(line, i) == "";
  }

  // `rest` stands for the tokens still to come.
  method TokenizeLine(line: string) returns (toks: seq<Token>)
    ensures toks == Tokenize(line)
  {
    toks := [];
    var cur, has, i := "", false, 0;
    assert After(line, 0) == line;
    ghost var rest := Tokens(After(line, 0), "", false);
    while i < |line|
      invariant rest == Tokens(After(line, i), cur, has)
      invariant toks + rest == Tokenize(line)
      decreases |line| - i
    {
      ghost var before := rest;
      var t;
      t, rest := ReadTokens(line, i, cur, has, rest);
      TurnKeeps(toks, t.out, before, rest);
      toks, cur, has, i := toks + t.out, t.cur, t.has, i + t.skip;
    }
    TokensEnd(line, i, cur, has);
    toks := toks + Flush(cur, has);
  }

  lemma TurnKeeps(toks: seq<Token>, out: seq<Token>, rest: seq<Token>, rest': seq<Token>)
    requires rest == out + rest'
    ensures toks + out + rest' == toks + rest
  {
    ConcatAssociates(toks, out, rest');
  }

  // One turn of that loop, and the tokens that come after it.
  method ReadTokens(line: string, i: nat, cur: string, has: bool, ghost rest: seq<Token>)
      returns (t: Turn, ghost rest': seq<Token>)
    requires i < |line| && rest == Tokens(After(line, i), cur, has)
    ensures t.skip > 0 && rest' == Tokens(After(line, i + t.skip), t.cur, t.has)
    ensures rest == t.out + rest'
  {
    t := ReadTurn(line, i, cur, has);
    TokensTurn(line, i, cur, has, t);
    rest' := Tokens(After(line, i + t.skip), t.cur, t.has);
  }

  method ReadTurn(line: string, i: nat, cur: string, has: bool) returns (t: Turn)
    requires i < |line|
    ensures t == TurnAt(line[i..], cur, has) && t.skip > 0
  {
    var ends, between, skip := EndAt(line, i, cur, has);
    if ends {
      t := Turn(Flush(cur, has) + between, "", false, skip);
    } else {
      var text;
      text, skip := CopyAt(line, i, cur, has);
      t := Turn([], cur + text, true, skip);
    }
  }

  // The cases of the tokenizer's loop that end a word, and the tokens they put after it.
  method EndAt(line: string, i: nat, ghost cur: string, ghost has: bool)
      returns (ends: bool, between: seq<Token>, skip: nat)
    requires i < |line|
    ensures ends == !ExtendsWord(line[i..])
    ensures ends ==> TurnAt(line[i..], cur, has) == Turn(Flush(cur, has) + between, "", false, skip)
  {
    var c := line[i];
    var n := |line| - i;
    ghost var s := line[i..];
    assert s[0] == c && (n > 1 ==> s[1] == line[i + 1]) && (n > 2 ==> s[2] == line[i + 2]) && (n > 3 ==> s[3] == line[i + 3]);
    ends, between, skip := true, [], 1;
    assert Flush(cur, has) + [] == Flush(cur, has);
    if c == ' ' || c == '\t' {
    } else if c == '\n' || c == '\r' || c == ';' {
      between := [Op(";")];
    } else if c == '(' || c == ')' {
      between := [Word([c])];
    } else if c == '|' {
      between, skip := if n > 1 && line[i + 1] == '|' then [Op("||")] else [Op("|")], if n > 1 && line[i + 1] == '|' then 2 else 1;
    } else if c == '&' {
      if n > 1 && line[i + 1] == '&' {
        between, skip := [Op("&&")], 2;
      } else if n > 1 && line[i + 1] == '>' {
        between, skip := [Op("&>")], 2;
      }
    } else if c == '>' {
      between, skip := if n > 1 && line[i + 1] == '>' then [Op(">>")] else [Op(">")], if n > 1 && line[i + 1] == '>' then 2 else 1;
    } else if c == '<' {
      between := [Op("<")];
    } else if c == '2' && n > 2 && line[i + 1] == '>' {
      if n > 3 && line[i + 2] == '&' && line[i + 3] == '1' {
        between, skip := [Op("2>&1")], 4;
      } else {
        between, skip := [Op("2>")], 2;
      }
    } else {
      ends := false;
    }
  }

  // The cases that extend it.
  method CopyAt(line: string, i: nat, ghost cur: string, ghost has: bool) returns (text: string, skip: nat)
    requires i < |line| && ExtendsWord(line[i..])
    ensures TurnAt(line[i..], cur, has) == Turn([], cur + text, true, skip)
  {
    var c := line[i];
    assert line[i..][0] == c && (i + 1 < |line| ==> line[i..][1] == line[i + 1]);
    if c == '\'' || c == '"' {
      text, skip := CopyQuoted(line, i);
    } else if c == '$' && i + 1 < |line| && line[i + 1] == '(' {
      text, skip := CopySubstitution(line, i);
    } else if c == '`' {
      text, skip := CopyBackquoted(line, i);
    } else {
      text, skip := [c], 1;
    }
  }

  method CopyQuoted(line: string, i: nat) returns (text: string, skip: nat)
    requires i < |line|
    ensures var s := line[i..];
            text == s[1..][..Until(s[1..], s[0])] && skip == Until(s[1..], s[0]) + 2
  {
    var j := CopyUntil(line, i + 1, line[i]);
    assert line[i..][1..] == line[i + 1..];
    assert line[i + 1..][..j - i - 1] == line[i + 1..j];
    return line[i + 1..j], j + 1 - i;
  }

  method CopySubstitution(line: string, i: nat) returns (text: string, skip: nat)
    requires i + 1 < |line|
    ensures var s := line[i..];
            skip == ToClose(s[2..], 1) + 2 && text == s[..skip]
  {
    var j := CopyToClose(line, i + 2);
    assert line[i..][2..] == line[i + 2..];
    assert line[i..][..j - i] == line[i..j];
    return line[i..j], j - i;
  }

  method CopyBackquoted(line: string, i: nat) returns (text: string, skip: nat)
    requires i < |line|
    ensures var s := line[i..];
            var n := Until(s[1..], '`');
            skip == (if n + 1 < |s| then n + 2 else |s|) && text == s[..skip]
  {
    var j := CopyUntil(line, i + 1, '`');
    assert line[i..][1..] == line[i + 1..];
    var end := if j < |line| then j + 1 else j;
    assert line[i..][..end - i] == line[i..end];
    return line[i..end], end - i;
  }

  // Where the run of characters other than `c` that starts at `i` ends.
  method CopyUntil(line: string, i: nat, c: char) returns (j: nat)
    requires i <= |line|
    ensures i <= j <= |line| && j - i == Until(line[i..], c)
  {
    j := i;
    while j < |line| && line[j] != c
      invariant i <= j <= |line|
      invariant j - i + Until(line[j..], c) == Until(line[i..], c)
    {
      assert line[j..][1..] == line[j + 1..];
      j := j + 1;
    }
  }

  method CopyToClose(line: string, i: nat) returns (j: nat)
    requires i <= |line|
    ensures i <= j <= |line| && j - i == ToClose(line[i..], 1)
  {
    var depth := 1;
    j := i;
    while j < |line| && depth > 0
      invariant i <= j <= |line|
      invariant j - i + ToClose(line[j..], depth) == ToClose(line[i..], 1)
    {
      assert line[j..][1..] == line[j + 1..];
      if line[j] == '(' {
        depth := depth + 1;
      } else if line[j] == ')' {
        depth := depth - 1;
      }
      j := j + 1;
    }
  }

  method ParseCommand(line: string) returns (stmts: seq<Statement>)
    ensures stmts == ParseLine(line)
    ensures WellFormed(stmts)
  {
    ParseIsWellFormed(line);
    var toks := TokenizeLine(line);
    stmts := [];
    var stages: seq<Stage>, stg, i := [], EMPTY, 0;
    assert toks[0..] == toks && [] + ParseTokens(toks, [], EMPTY) == ParseTokens(toks, [], EMPTY);
    while i < |toks|
      invariant i <= |toks|
      invariant stmts + ParseTokens(toks[i..], stages, stg) == ParseTokens(toks, [], EMPTY)
    {
      var out;
      ghost var before := stmts;
      out, stages, stg, i := OneToken(toks, i, stages, stg);
      ConcatAssociates(before, out, ParseTokens(toks[i..], stages, stg));
      stmts := stmts + out;
    }
    stmts := stmts + FinishStatement(stages, stg, End);
  }

  // The body of that loop: the statement it finishes, if any, and what is being built.
  method OneToken(toks: seq<Token>, i: nat, stages: seq<Stage>, stg: Stage)
      returns (out: seq<Statement>, stages': seq<Stage>, stg': Stage, i': nat)
    requires i < |toks|
    ensures i < i' <= |toks|
    ensures ParseTokens(toks[i..], stages, stg) == out + ParseTokens(toks[i'..], stages', stg')
  {
    var t := toks[i];
    assert toks[i..][0] == t && toks[i..][1..] == toks[i + 1..];
    assert i + 1 < |toks| ==> toks[i..][2..] == toks[i + 2..] && toks[i..][1] == toks[i + 1];
    out, stages', stg', i' := [], stages, stg, i + 1;
    if t.Word? {
      if !IsGrouping(t.val) {
        var assign := SplitAssign(t.val);
        if |stg.args| == 0 && assign.Some? {
          stg' := stg.(assigns := stg.assigns[assign.value.0 := assign.value.1]);
        } else {
          stg' := stg.(args := stg.args + [t.val]);
        }
      }
      assert stg' == AddWord(stg, t.val);
    } else if t.val == "|" {
      stages', stg' := FinishStage(stages, stg), EMPTY;
    } else if ChainOf(t.val).Some? {
      out := FinishStatement(stages, stg, ChainOf(t.val).value);
      stages', stg' := [], EMPTY;
      return;
    } else if t.val == ">" || t.val == ">>" || t.val == "&>" {
      if i + 1 < |toks| {
        var target := toks[i + 1].val;
        i' := i + 2;
        if target == "/dev/null" {
          stg' := stg.(outNull := true);
        } else {
          stg' := stg.(outFile := target, appendT := t.val == ">>");
        }
      }
    } else if t.val == "2>" || t.val == "<" {
      if i + 1 < |toks| {
        i' := i + 2;
      }
    }
    NothingOut(ParseTokens(toks[i'..], stages', stg'));
  }

  lemma NothingOut(stmts: seq<Statement>)
    ensures [] + stmts == stmts
  {
  }
}
