// What the parser makes of lines as people write them: every spelling of words and
// operators, and redirections of any stream in any place.
module ParseLaws {
  import opened Basics
  import opened Parse

  // ---- pieces of a line ----

  // A part of a word.  The unclosed ones run to the end of the line.
  datatype Chunk =
    | Bare(text: string)
    | Quoted(q: char, text: string)
    | Substituted(text: string)
    | Backquoted(text: string)
    | OpenQuoted(q: char, text: string)
    | OpenSubstituted(text: string)
    | OpenBackquoted(text: string)

  datatype Item =
    | AWord(chunks: seq<Chunk>)
    | AnOp(op: string)
    | Blank(c: char)
    | NewLine(c: char)
    | Bracket(c: char)
    | Background

  function ChunkText(ch: Chunk): string {
    match ch
    case Bare(text) => text
    case Quoted(q, text) => [q] + text + [q]
    case Substituted(text) => "$(" + text + ")"
    case Backquoted(text) => "`" + text + "`"
    case OpenQuoted(q, text) => [q] + text
    case OpenSubstituted(text) => "$(" + text
    case OpenBackquoted(text) => "`" + text
  }

  // What it adds to the word: quotes go, substitutions stay for later.
  function ChunkValue(ch: Chunk): string {
    if ch.Quoted? || ch.OpenQuoted? then ch.text else ChunkText(ch)
  }

  function ChunksText(chunks: seq<Chunk>): string {
    if chunks == [] then "" else ChunkText(chunks[0]) + ChunksText(chunks[1..])
  }

  function ChunksValue(chunks: seq<Chunk>): string {
    if chunks == [] then "" else ChunkValue(chunks[0]) + ChunksValue(chunks[1..])
  }

  function ItemText(item: Item): string {
    match item
    case AWord(chunks) => ChunksText(chunks)
    case AnOp(op) => op
    case Blank(c) => [c]
    case NewLine(c) => [c]
    case Bracket(c) => [c]
    case Background => "&"
  }

  function ItemTokens(item: Item): seq<Token> {
    match item
    case AWord(chunks) => [Word(ChunksValue(chunks))]
    case AnOp(op) => [Op(op)]
    case Blank(_) => []
    case NewLine(_) => [Op(";")]
    case Bracket(c) => [Word([c])]
    case Background => []
  }

  function Text(items: seq<Item>): string {
    if items == [] then "" else ItemText(items[0]) + Text(items[1..])
  }

  function TokensOf(items: seq<Item>): seq<Token> {
    if items == [] then [] else ItemTokens(items[0]) + TokensOf(items[1..])
  }

  // ---- where a piece can stand ----

  predicate BareChar(c: char) {
    c !in " \t\n\r()'\"`|&;><"
  }

  // Parentheses in pairs inside `depth` open ones, which stay open.
  predicate Balanced(text: string, depth: nat) {
    if text == "" then depth == 0
    else if text[0] == '(' then Balanced(text[1..], depth + 1)
    else if text[0] == ')' then depth > 0 && Balanced(text[1..], depth - 1)
    else Balanced(text[1..], depth)
  }

  // Never closes the last of `depth` open parentheses.
  predicate StaysOpen(text: string, depth: nat) {
    depth > 0 &&
    (text == "" || StaysOpen(text[1..], if text[0] == '(' then depth + 1 else if text[0] == ')' then depth - 1 else depth))
  }

  // `ch` can be written in front of `rest`.
  predicate ChunkFits(ch: Chunk, rest: string) {
    match ch
    case Bare(text) =>
      && text != "" && (forall i :: 0 <= i < |text| ==> BareChar(text[i]))
      && !(text[|text| - 1] == '2' && NextIs(rest, 0, '>') && |rest| > 1)
      && !(text[|text| - 1] == '$' && NextIs(rest, 0, '('))
    case Quoted(q, text) => (q == '\'' || q == '"') && q !in text
    case Substituted(text) => Balanced(text, 0)
    case Backquoted(text) => '`' !in text
    case OpenQuoted(q, text) => (q == '\'' || q == '"') && q !in text && rest == ""
    case OpenSubstituted(text) => StaysOpen(text, 1) && rest == ""
    case OpenBackquoted(text) => '`' !in text && rest == ""
  }

  predicate ChunksFit(chunks: seq<Chunk>, rest: string) {
    chunks == [] || (ChunkFits(chunks[0], ChunksText(chunks[1..]) + rest) && ChunksFit(chunks[1..], rest))
  }

  predicate SeparatorFits(item: Item, behind: string) {
    match item
    case AWord(_) => false
    case AnOp(op) =>
      && IsOperator(op)
      && (op == "|" ==> !NextIs(behind, 0, '|'))
      && (op == ">" ==> !NextIs(behind, 0, '>'))
      && (op == "2>" ==> behind != "" && !(NextIs(behind, 0, '&') && NextIs(behind, 1, '1')))
    case Blank(c) => c == ' ' || c == '\t'
    case NewLine(c) => c == '\n' || c == '\r'
    case Bracket(c) => c == '(' || c == ')'
    case Background => !NextIs(behind, 0, '&') && !NextIs(behind, 0, '>')
  }

  predicate ItemFits(item: Item, rest: seq<Item>) {
    if item.AWord?
    then item.chunks != [] && ChunksFit(item.chunks, Text(rest)) && (rest != [] ==> !rest[0].AWord?)
    else SeparatorFits(item, Text(rest))
  }

  predicate Spelled(items: seq<Item>) {
    items == [] || (ItemFits(items[0], items[1..]) && Spelled(items[1..]))
  }

  // ---- reading one chunk ----

  lemma TurnReads(s: string, rest: string, cur: string, has: bool, text: string, skip: nat)
    requires 0 < skip && After(s, skip) == rest && s != ""
    requires TurnAt(s, cur, has) == Turn([], cur + text, true, skip)
    ensures Tokens(s, cur, has) == Tokens(rest, cur + text, true)
  {
    TokensStep(s, cur, has, Turn([], cur + text, true, skip));
    assert [] + Tokens(rest, cur + text, true) == Tokens(rest, cur + text, true);
  }

  lemma BareStep(text: string, rest: string, cur: string, has: bool)
    requires ChunkFits(Bare(text), rest)
    ensures Tokens(text + rest, cur, has) == Tokens(text[1..] + rest, cur + [text[0]], true)
  {
    BareTurn(text, rest, cur, has);
    assert (text + rest)[1..] == text[1..] + rest;
    TurnReads(text + rest, text[1..] + rest, cur, has, [text[0]], 1);
  }

  lemma {:induction false} ReadBare(text: string, rest: string, cur: string, has: bool)
    requires ChunkFits(Bare(text), rest)
    ensures Tokens(text + rest, cur, has) == Tokens(rest, cur + text, true)
    decreases |text|
  {
    BareStep(text, rest, cur, has);
    if |text| == 1 {
      OneLeft(text, rest);
    } else {
      ReadBare(text[1..], rest, cur + [text[0]], true);
      HeadMoves(cur, text);
    }
  }

  lemma OneLeft(text: string, rest: string)
    requires |text| == 1
    ensures text[1..] + rest == rest && [text[0]] == text
  {
  }

  lemma HeadMoves(cur: string, w: string)
    requires w != ""
    ensures cur + [w[0]] + w[1..] == cur + w
  {
  }

  lemma BareTurn(text: string, rest: string, cur: string, has: bool)
    requires ChunkFits(Bare(text), rest)
    ensures TurnAt(text + rest, cur, has) == Turn([], cur + [text[0]], true, 1)
  {
    var s := text + rest;
    assert s[0] == text[0] && BareChar(s[0]);
    if |text| > 1 {
      assert s[1] == text[1] && BareChar(text[1]);
    } else {
      assert |s| > 1 ==> s[1] == rest[0];
    }
  }

  lemma {:induction false} ClosesAt(text: string, rest: string, depth: nat)
    requires Balanced(text, depth)
    ensures ToClose(text + (")" + rest), depth + 1) == |text| + 1
    decreases |text|
  {
    var s := text + (")" + rest);
    if text == "" {
      assert s == ")" + rest && s[1..] == rest;
    } else {
      assert s[1..] == text[1..] + (")" + rest);
      ClosesAt(text[1..], rest, if text[0] == '(' then depth + 1 else if text[0] == ')' then depth - 1 else depth);
    }
  }

  lemma {:induction false} NeverCloses(text: string, depth: nat)
    requires StaysOpen(text, depth)
    ensures ToClose(text, depth) == |text|
    decreases |text|
  {
    if text != "" {
      NeverCloses(text[1..], if text[0] == '(' then depth + 1 else if text[0] == ')' then depth - 1 else depth);
    }
  }

  lemma ReadSubstituted(text: string, rest: string, cur: string, has: bool)
    requires Balanced(text, 0)
    ensures Tokens("$(" + (text + (")" + rest)), cur, has) == Tokens(rest, cur + ("$(" + text + ")"), true)
  {
    var s := "$(" + (text + (")" + rest));
    ClosesAt(text, rest, 0);
    TwoInFront('$', '(', text + (")" + rest));
    BehindClose(text, rest);
    TurnReads(s, rest, cur, has, "$(" + text + ")", |text| + 3);
  }

  lemma TwoInFront(a: char, b: char, t: string)
    ensures var s := [a, b] + t;
            |s| >= 2 && s[0] == a && s[1] == b && s[2..] == t
  {
  }

  lemma BehindClose(text: string, rest: string)
    ensures var s := "$(" + (text + (")" + rest));
            |s| >= |text| + 3 && s[..|text| + 3] == "$(" + text + ")" && s[|text| + 3..] == rest
  {
  }

  lemma ReadOpenSubstituted(text: string, cur: string, has: bool)
    requires StaysOpen(text, 1)
    ensures Tokens("$(" + text, cur, has) == Tokens("", cur + ("$(" + text), true)
  {
    var s := "$(" + text;
    NeverCloses(text, 1);
    TwoInFront('$', '(', text);
    assert s[..|text| + 2] == s && s[|text| + 2..] == "";
    TurnReads(s, "", cur, has, s, |text| + 2);
  }

  lemma ReadBackquoted(text: string, rest: string, cur: string, has: bool)
    requires '`' !in text
    ensures Tokens(['`'] + text + ['`'] + rest, cur, has) == Tokens(rest, cur + ("`" + text + "`"), true)
  {
    var s := ['`'] + text + ['`'] + rest;
    assert s[1..] == text + ['`'] + rest;
    UntilExact(text, '`', rest);
    assert s[..|text| + 2] == "`" + text + "`" && s[|text| + 2..] == rest;
    TurnReads(s, rest, cur, has, "`" + text + "`", |text| + 2);
  }

  lemma {:induction false} UntilNever(text: string, c: char)
    requires c !in text
    ensures Until(text, c) == |text|
  {
    if text != "" {
      UntilNever(text[1..], c);
    }
  }

  lemma ReadOpenBackquoted(text: string, cur: string, has: bool)
    requires '`' !in text
    ensures Tokens("`" + text, cur, has) == Tokens("", cur + ("`" + text), true)
  {
    var s := "`" + text;
    assert s[1..] == text && s[0] == '`';
    UntilNever(text, '`');
    TurnReads(s, "", cur, has, s, |s|);
  }

  lemma ReadOpenQuoted(q: char, text: string, cur: string, has: bool)
    requires (q == '\'' || q == '"') && q !in text
    ensures Tokens([q] + text, cur, has) == Tokens("", cur + text, true)
  {
    var s := [q] + text;
    assert s[1..] == text && text[..|text|] == text;
    UntilNever(text, q);
    TurnReads(s, "", cur, has, text, |text| + 2);
  }

  lemma ReadChunk(ch: Chunk, rest: string, cur: string, has: bool)
    requires ChunkFits(ch, rest)
    ensures Tokens(ChunkText(ch) + rest, cur, has) == Tokens(rest, cur + ChunkValue(ch), true)
  {
    match ch
    case Bare(text) => ReadBare(text, rest, cur, has);
    case Quoted(q, text) => ReadQuoted(q, text, rest, cur, has);
    case Substituted(text) =>
      assert "$(" + text + ")" + rest == "$(" + (text + (")" + rest));
      ReadSubstituted(text, rest, cur, has);
    case Backquoted(text) =>
      assert "`" + text + "`" + rest == ['`'] + text + ['`'] + rest;
      ReadBackquoted(text, rest, cur, has);
    case OpenQuoted(q, text) =>
      assert [q] + text + rest == [q] + text;
      ReadOpenQuoted(q, text, cur, has);
    case OpenSubstituted(text) =>
      assert "$(" + text + rest == "$(" + text;
      ReadOpenSubstituted(text, cur, has);
    case OpenBackquoted(text) =>
      assert "`" + text + rest == "`" + text;
      ReadOpenBackquoted(text, cur, has);
  }

  lemma {:induction false} ReadChunks(chunks: seq<Chunk>, rest: string, cur: string, has: bool)
    requires ChunksFit(chunks, rest) && (chunks == [] ==> has)
    ensures Tokens(ChunksText(chunks) + rest, cur, has) == Tokens(rest, cur + ChunksValue(chunks), true)
    decreases |chunks|
  {
    if chunks == [] {
      assert "" + rest == rest && cur + "" == cur;
    } else {
      var behind := ChunksText(chunks[1..]);
      ConcatAssociates(ChunkText(chunks[0]), behind, rest);
      ReadChunk(chunks[0], behind + rest, cur, has);
      ReadChunks(chunks[1..], rest, cur + ChunkValue(chunks[0]), true);
      ConcatAssociates(cur, ChunkValue(chunks[0]), ChunksValue(chunks[1..]));
    }
  }

  // ---- reading one item ----

  // What ends a word ends it and is then read as it would be without one before it.
  lemma WordEnds(s: string, w: string)
    requires s == "" || !ExtendsWord(s)
    ensures Tokens(s, w, true) == [Word(w)] + Tokens(s, "", false)
  {
    if s != "" {
      var t, u := TurnAt(s, w, true), TurnAt(s, "", false);
      FlushFirst(s, w);
      TokensStep(s, w, true, t);
      TokensStep(s, "", false, u);
      ConcatAssociates([Word(w)], u.out, Tokens(After(s, u.skip), "", false));
    }
  }

  lemma FlushFirst(s: string, w: string)
    requires s != "" && !ExtendsWord(s)
    ensures var t, u := TurnAt(s, w, true), TurnAt(s, "", false);
            t.out == [Word(w)] + u.out && t.cur == u.cur == "" && t.has == u.has == false && t.skip == u.skip
  {
  }

  lemma SeparatorEndsWord(item: Item, behind: string)
    requires SeparatorFits(item, behind)
    ensures var s := ItemText(item) + behind;
            s != "" && !ExtendsWord(s)
  {
    var s := ItemText(item) + behind;
    assert s[0] == ItemText(item)[0];
    if item.AnOp? && (item.op == "2>" || item.op == "2>&1") {
      assert s[1] == item.op[1];
    }
  }

  lemma ReadItem(item: Item, rest: seq<Item>)
    requires ItemFits(item, rest) && Spelled(rest)
    ensures Tokens(ItemText(item) + Text(rest), "", false) == ItemTokens(item) + Tokens(Text(rest), "", false)
  {
    var s, behind := ItemText(item) + Text(rest), Text(rest);
    match item
    case AWord(chunks) =>
      ReadChunks(chunks, behind, "", false);
      assert "" + ChunksValue(chunks) == ChunksValue(chunks);
      if rest != [] {
        SeparatorEndsWord(rest[0], Text(rest[1..]));
      }
      WordEnds(behind, ChunksValue(chunks));
    case _ =>
      SeparatorTurn(item, behind);
      TokensStep(s, "", false, Turn(ItemTokens(item), "", false, |ItemText(item)|));
      assert s[|ItemText(item)|..] == behind;
  }

  lemma SeparatorTurn(item: Item, behind: string)
    requires SeparatorFits(item, behind)
    ensures TurnAt(ItemText(item) + behind, "", false) == Turn(ItemTokens(item), "", false, |ItemText(item)|)
  {
    if item.AnOp? {
      OpTurn(item.op, behind);
    } else {
      var s := ItemText(item) + behind;
      assert s[0] == ItemText(item)[0] && (behind != "" ==> s[1] == behind[0]);
    }
  }

  lemma OpTurn(op: string, behind: string)
    requires IsOperator(op)
    requires op == "|" ==> !NextIs(behind, 0, '|')
    requires op == ">" ==> !NextIs(behind, 0, '>')
    requires op == "2>" ==> behind != "" && !(NextIs(behind, 0, '&') && NextIs(behind, 1, '1'))
    ensures TurnAt(op + behind, "", false) == Turn([Op(op)], "", false, |op|)
  {
  }

  // The tokenizer reads every spelling of a line, spaced, quoted and ended in any way, as
  // the words and operators it spells.
  lemma {:induction false} TokensOfSpelled(items: seq<Item>)
    requires Spelled(items)
    ensures Tokenize(Text(items)) == TokensOf(items)
    decreases |items|
  {
    if items != [] {
      ReadItem(items[0], items[1..]);
      TokensOfSpelled(items[1..]);
    }
  }

  // ---- every line is a spelling ----

  lemma {:induction false} CloseSplits(s: string, depth: nat)
    requires depth > 0
    ensures var n := ToClose(s, depth);
            StaysOpen(s, depth) || (0 < n && s[n - 1] == ')' && Balanced(s[..n - 1], depth - 1))
    decreases |s|
  {
    if s != "" {
      var n := ToClose(s, depth);
      if s[0] != ')' || depth > 1 {
        CloseSplits(s[1..], if s[0] == '(' then depth + 1 else if s[0] == ')' then depth - 1 else depth);
        if !StaysOpen(s, depth) {
          assert s[..n - 1][1..] == s[1..][..n - 2];
        }
      }
    }
  }

  // The chunk at the start of a line that starts inside a word.
  lemma FirstChunk(line: string) returns (ch: Chunk, rest: string)
    requires ExtendsWord(line)
    ensures ChunkFits(ch, rest) && line == ChunkText(ch) + rest && |rest| < |line|
  {
    var c := line[0];
    if c == '\'' || c == '"' || c == '`' {
      ch, rest := FirstQuoted(line);
    } else if c == '$' && NextIs(line, 1, '(') {
      ch, rest := FirstSubstituted(line);
    } else {
      ch, rest := Bare([c]), line[1..];
      assert BareChar(c);
    }
  }

  lemma FirstQuoted(line: string) returns (ch: Chunk, rest: string)
    requires line != "" && (line[0] == '\'' || line[0] == '"' || line[0] == '`')
    ensures ChunkFits(ch, rest) && line == ChunkText(ch) + rest && |rest| < |line|
  {
    var q, n := line[0], Until(line[1..], line[0]);
    var text := line[1..][..n];
    UntilFirst(line[1..], q);
    if n + 1 < |line| {
      ch, rest := if q == '`' then Backquoted(text) else Quoted(q, text), line[n + 2..];
      assert line == [q] + text + [q] + rest;
    } else {
      ch, rest := if q == '`' then OpenBackquoted(text) else OpenQuoted(q, text), "";
      assert line == [q] + text + "";
    }
  }

  lemma {:induction false} UntilFirst(s: string, c: char)
    ensures c !in s[..Until(s, c)]
  {
    if s != "" && s[0] != c {
      UntilFirst(s[1..], c);
      var n := Until(s[1..], c);
      assert s[..n + 1] == [s[0]] + s[1..][..n];
    }
  }

  lemma FirstSubstituted(line: string) returns (ch: Chunk, rest: string)
    requires NextIs(line, 0, '$') && NextIs(line, 1, '(')
    ensures ChunkFits(ch, rest) && line == ChunkText(ch) + rest && |rest| < |line|
  {
    var s := line[2..];
    var n := ToClose(s, 1);
    CloseSplits(s, 1);
    if StaysOpen(s, 1) {
      ch, rest := OpenSubstituted(s), "";
      assert line == "$(" + s + "";
    } else {
      ch, rest := Substituted(s[..n - 1]), s[n..];
      SplitAtClose(line, n);
    }
  }

  lemma SplitAtClose(line: string, n: nat)
    requires NextIs(line, 0, '$') && NextIs(line, 1, '(') && 0 < n <= |line| - 2 && line[n + 1] == ')'
    ensures line == "$(" + line[2..][..n - 1] + ")" + line[2..][n..]
  {
  }

  // The item at the start of a line that does not.
  lemma FirstSeparator(line: string) returns (item: Item, rest: string)
    requires line != "" && !ExtendsWord(line)
    ensures SeparatorFits(item, rest) && line == ItemText(item) + rest && |rest| < |line|
  {
    var c := line[0];
    var k := 1;
    if c == ' ' || c == '\t' {
      item := Blank(c);
    } else if c == '\n' || c == '\r' {
      item := NewLine(c);
    } else if c == '(' || c == ')' {
      item := Bracket(c);
    } else {
      var op := FirstOperator(line);
      item := if op == "&" then Background else AnOp(op);
      k := |op|;
    }
    rest := line[k..];
    assert line == line[..k] + rest;
  }

  lemma FirstOperator(line: string) returns (op: string)
    requires line != "" && !ExtendsWord(line) && line[0] !in " \t\n\r()"
    ensures op == "&" || IsOperator(op)
    ensures 0 < |op| <= |line| && line[..|op|] == op
    ensures var behind := line[|op|..];
            && (op == "|" ==> !NextIs(behind, 0, '|'))
            && (op == ">" ==> !NextIs(behind, 0, '>'))
            && (op == "2>" ==> behind != "" && !(NextIs(behind, 0, '&') && NextIs(behind, 1, '1')))
            && (op == "&" ==> !NextIs(behind, 0, '&') && !NextIs(behind, 0, '>'))
  {
    var c := line[0];
    if c == '2' {
      op := if NextIs(line, 2, '&') && NextIs(line, 3, '1') then "2>&1" else "2>";
    } else if c == '|' {
      op := if NextIs(line, 1, '|') then "||" else "|";
    } else if c == '>' {
      op := if NextIs(line, 1, '>') then ">>" else ">";
    } else if c == '&' {
      op := if NextIs(line, 1, '&') then "&&" else if NextIs(line, 1, '>') then "&>" else "&";
    } else {
      op := [c];
    }
    assert forall i :: 0 <= i < |op| ==> line[i] == op[i];
  }

  // So the spellings are all the lines there are.
  lemma {:induction false} EveryLineIsSpelled(line: string) returns (items: seq<Item>)
    ensures Spelled(items) && Text(items) == line
    decreases |line|
  {
    if line == "" {
      return [];
    }
    if !ExtendsWord(line) {
      var item, rest := FirstSeparator(line);
      var more := EveryLineIsSpelled(rest);
      items := [item] + more;
      assert items[1..] == more;
    } else {
      var ch, rest := FirstChunk(line);
      var more := EveryLineIsSpelled(rest);
      items := WordInFront(ch, more);
    }
  }

  lemma WordInFront(ch: Chunk, more: seq<Item>) returns (items: seq<Item>)
    requires Spelled(more) && ChunkFits(ch, Text(more))
    ensures Spelled(items) && Text(items) == ChunkText(ch) + Text(more)
  {
    if more != [] && more[0].AWord? {
      var chunks, behind := more[0].chunks, more[1..];
      items := [AWord([ch] + chunks)] + behind;
      assert items[1..] == behind && ([ch] + chunks)[1..] == chunks;
      ConcatAssociates(ChunkText(ch), ChunksText(chunks), Text(behind));
      assert ChunksFit([ch] + chunks, Text(behind));
      assert ItemFits(items[0], behind);
    } else {
      items := [AWord([ch])] + more;
      assert items[1..] == more && [ch][1..] == [];
      assert ChunkText(ch) + "" == ChunkText(ch) && "" + Text(more) == Text(more);
      assert ChunksFit([], Text(more)) && ChunksFit([ch], Text(more));
      assert ItemFits(items[0], more);
    }
  }

  // A word is an assignment exactly if a name stands before its first equals sign.
  lemma AssignmentExactly(k: string, v: string)
    requires '=' !in k
    ensures SplitAssign(k + "=" + v) == if IsName(k) then Some((k, v)) else None
    ensures SplitAssign(k).None?
    ensures IsName("_x1") && IsName("PATH") && !IsName("1x") && !IsName("a-b") && !IsName("")
  {
    UntilExact(k, '=', v);
    UntilNever(k, '=');
    var s := k + ['='] + v;
    assert k + "=" + v == s && s[..|k|] == k && s[|k| + 1..] == v;
    assert !IsNameChar("1x"[0], true) && !IsNameChar("a-b"[1], false);
  }

  // ---- redirections ----

  // The tokens without redirections of errors and input, and `&>` as `>`.
  function StdoutOnly(toks: seq<Token>): seq<Token>
    decreases |toks|
  {
    if toks == [] then []
    else if toks[0] == Op(">") || toks[0] == Op(">>") || toks[0] == Op("&>") then
      if |toks| == 1 then []
      else [if toks[0] == Op("&>") then Op(">") else toks[0], toks[1]] + StdoutOnly(toks[2..])
    else if toks[0] == Op("2>") || toks[0] == Op("<") then StdoutOnly(if |toks| > 1 then toks[2..] else [])
    else if toks[0] == Op("2>&1") then StdoutOnly(toks[1..])
    else [toks[0]] + StdoutOnly(toks[1..])
  }

  // Redirecting errors or input does nothing, in any line and place, and `&>` redirects
  // the output as `>` does.
  lemma {:induction false} OnlyStdoutCounts(toks: seq<Token>, stages: seq<Stage>, stg: Stage)
    ensures ParseTokens(toks, stages, stg) == ParseTokens(StdoutOnly(toks), stages, stg)
    decreases |toks|
  {
    if toks != [] {
      var t := toks[0];
      if t == Op(">") || t == Op(">>") || t == Op("&>") {
        if |toks| > 1 {
          var op := if t == Op("&>") then Op(">") else t;
          OnlyStdoutCounts(toks[2..], stages, Redirect(stg, t.val, toks[1].val));
          ReadRedirected(op, toks[1], StdoutOnly(toks[2..]), stages, stg);
        } else {
          assert toks[1..] == [];
        }
      } else if t == Op("2>") || t == Op("<") {
        if |toks| > 1 {
          OnlyStdoutCounts(toks[2..], stages, stg);
        } else {
          assert toks[1..] == [];
        }
      } else if t == Op("2>&1") {
        OnlyStdoutCounts(toks[1..], stages, stg);
      } else {
        var more := StdoutOnly(toks[1..]);
        assert ([t] + more)[1..] == more;
        if t.Word? {
          OnlyStdoutCounts(toks[1..], stages, AddWord(stg, t.val));
        } else if t.val == "|" {
          OnlyStdoutCounts(toks[1..], FinishStage(stages, stg), EMPTY);
        } else if ChainOf(t.val).Some? {
          OnlyStdoutCounts(toks[1..], [], EMPTY);
        } else {
          OnlyStdoutCounts(toks[1..], stages, stg);
        }
      }
    }
  }

  lemma ReadRedirected(op: Token, target: Token, rest: seq<Token>, stages: seq<Stage>, stg: Stage)
    requires op == Op(">") || op == Op(">>")
    ensures ParseTokens([op, target] + rest, stages, stg) == ParseTokens(rest, stages, Redirect(stg, op.val, target.val))
  {
    var toks := [op, target] + rest;
    assert toks[0] == op && toks[1] == target && toks[2..] == rest;
  }

  // A redirection may stand before the words of its stage as well as behind them.
  lemma RedirectsAnywhere(op: string, target: string, w: string, rest: seq<Token>, stages: seq<Stage>, stg: Stage)
    requires op == ">" || op == ">>"
    ensures ParseTokens([Op(op), Word(target)] + ([Word(w)] + rest), stages, stg)
         == ParseTokens([Word(w)] + ([Op(op), Word(target)] + rest), stages, stg)
  {
    ReadRedirected(Op(op), Word(target), [Word(w)] + rest, stages, stg);
    ReadRedirected(Op(op), Word(target), rest, stages, AddWord(stg, w));
    FirstWord(w, rest, stages, Redirect(stg, op, target));
    FirstWord(w, [Op(op), Word(target)] + rest, stages, stg);
    assert AddWord(Redirect(stg, op, target), w) == Redirect(AddWord(stg, w), op, target);
  }

  lemma FirstWord(w: string, rest: seq<Token>, stages: seq<Stage>, stg: Stage)
    ensures ParseTokens([Word(w)] + rest, stages, stg) == ParseTokens(rest, stages, AddWord(stg, w))
  {
    assert ([Word(w)] + rest)[1..] == rest;
  }

  // Brackets and braces around commands are dropped, and so are statements and stages with
  // nothing in them.
  lemma EmptiesVanish(bracket: string, op: string, rest: seq<Token>, stages: seq<Stage>, stg: Stage)
    requires bracket in {"(", ")", "{", "}"} && op in {";", "&&", "||"}
    ensures ParseTokens([Word(bracket)] + rest, stages, stg) == ParseTokens(rest, stages, stg)
    ensures ParseTokens([Op(op)] + rest, [], EMPTY) == ParseTokens(rest, [], EMPTY)
    ensures ParseTokens([Op("|")] + rest, stages, EMPTY) == ParseTokens(rest, stages, EMPTY)
  {
    FirstWord(bracket, rest, stages, stg);
    assert ([Op(op)] + rest)[1..] == rest && ([Op("|")] + rest)[1..] == rest;
    assert FinishStatement([], EMPTY, ChainOf(op).value) == [];
    assert [] + ParseTokens(rest, [], EMPTY) == ParseTokens(rest, [], EMPTY);
  }
}
