// The line discipline of an interactive SSH shell: what is typed, what the client's
// screen shows, and what the shell's line reader is handed.
module Tty {
  import opened Basics

  // A byte, as a char; CR, LF, DEL and friends by number.
  type Bytes = string

  const BS := 8 as char
  const LF := 10 as char
  const CR := 13 as char
  const CTRL_C := 3 as char
  const CTRL_D := 4 as char
  const SPACE := ' '
  const DEL := 127 as char

  const MAX_COOKED_LINE := 64 * 1024

  // `pending` is everything handed to the reader so far, `echo` everything written back.
  datatype State = State(pending: Bytes, line: Bytes, prevCR: bool, eof: bool, echo: Bytes)

  const START := State("", "", false, false, "")

  function EndLine(st: State): State {
    st.(pending := st.pending + st.line + [LF], line := "", echo := st.echo + [CR, LF])
  }

  // One byte; `st.eof` never holds here.
  function CookByte(st0: State, c: char): State {
    var st := st0.(prevCR := false);
    if c == CR then EndLine(st).(prevCR := true)
    else if c == LF then if st0.prevCR then st else EndLine(st)
    else if c == DEL || c == BS then
      if st.line == "" then st
      else st.(line := st.line[..|st.line| - 1], echo := st.echo + [BS, SPACE, BS])
    else if c == CTRL_C then
      st.(pending := st.pending + [LF], line := "", echo := st.echo + ['^', 'C', CR, LF])
    else if c == CTRL_D then if st.line == "" then st.(eof := true) else st
    else if c >= SPACE then
      var st' := st.(line := st.line + [c], echo := st.echo + [c]);
      if |st'.line| >= MAX_COOKED_LINE then EndLine(st') else st'
    else st
  }

  // A run of bytes; an end of file drops the rest.
  function CookAll(st: State, input: Bytes): State
    decreases |input|
  {
    if input == "" || st.eof then st else CookAll(CookByte(st, input[0]), input[1..])
  }

  // ---- chunking ----

  lemma {:induction false} CookConcat(st: State, a: Bytes, b: Bytes)
    ensures CookAll(st, a + b) == CookAll(CookAll(st, a), b)
    decreases |a|
  {
    if a == "" {
      assert a + b == b;
    } else if !st.eof {
      assert (a + b)[1..] == a[1..] + b;
      CookConcat(CookByte(st, a[0]), a[1..], b);
    } else {
      assert a + b != "";
    }
  }

  function CookChunks(st: State, chunks: seq<Bytes>): State
    decreases |chunks|
  {
    if chunks == [] then st else CookChunks(CookAll(st, chunks[0]), chunks[1..])
  }

  // However the input is cut into chunks, the same is echoed and the same delivered.
  lemma {:induction false} ChunksDoNotMatter(st: State, chunks: seq<Bytes>)
    ensures CookChunks(st, chunks) == CookAll(st, Flatten(chunks))
    decreases |chunks|
  {
    if chunks != [] {
      ChunksDoNotMatter(CookAll(st, chunks[0]), chunks[1..]);
      CookConcat(st, chunks[0], Flatten(chunks[1..]));
    }
  }

  // ---- what a key does ----

  predicate Printable(c: char) {
    c >= SPACE && c != DEL
  }

  // Whatever follows, a state behind a CR differs from one that is not only in that a
  // line feed is swallowed.
  lemma AfterCr(st: State, input: Bytes)
    requires input != "" && input[0] != LF
    ensures CookAll(st.(prevCR := true), input) == CookAll(st.(prevCR := false), input)
            || (st.eof && CookAll(st, input) == st)
  {
    if !st.eof {
      assert CookByte(st.(prevCR := true), input[0]) == CookByte(st.(prevCR := false), input[0]);
    }
  }

  // Everything but whether the last byte was a CR.
  function Settled(st: State): State {
    st.(prevCR := false)
  }

  lemma CrLfFrom(st: State, behind: Bytes)
    requires behind == "" || behind[0] != LF
    ensures Settled(CookAll(CookAll(st, [CR, LF]), behind)) == Settled(CookAll(CookAll(st, [CR]), behind))
  {
    CookTwo(st, CR, LF);
    CookOne(st, CR);
    CookOne(CookByte(st, CR), LF);
    if !st.eof && behind != "" {
      AfterCr(CookByte(st, CR), behind);
    }
  }

  // A line feed behind a carriage return that has none changes nothing.
  lemma CrLfIsCr(before: Bytes, behind: Bytes)
    requires behind == "" || behind[0] != LF
    ensures Settled(CookAll(START, before + [CR, LF] + behind)) == Settled(CookAll(START, before + [CR] + behind))
  {
    CookConcat(START, before + [CR, LF], behind);
    CookConcat(START, before, [CR, LF]);
    CookConcat(START, before + [CR], behind);
    CookConcat(START, before, [CR]);
    CrLfFrom(CookAll(START, before), behind);
  }

  lemma CookOne(st: State, c: char)
    ensures CookAll(st, [c]) == if st.eof then st else CookByte(st, c)
  {
    assert [c][1..] == "";
    assert !st.eof ==> CookAll(st, [c]) == CookAll(CookByte(st, c), "");
  }

  lemma CookTwo(st: State, c: char, d: char)
    ensures CookAll(st, [c, d]) == CookAll(CookAll(st, [c]), [d])
  {
    assert [c] + [d] == [c, d];
    CookConcat(st, [c], [d]);
  }

  // Line ends of any kind as line feeds.
  function Unified(input: Bytes): Bytes
    decreases |input|
  {
    if input == "" then ""
    else if input[0] == CR then
      [LF] + Unified(if |input| > 1 && input[1] == LF then input[2..] else input[1..])
    else [input[0]] + Unified(input[1..])
  }

  lemma EndsAlike(st: State)
    ensures Settled(CookByte(st, CR)) == CookByte(Settled(st), LF)
    ensures CookByte(CookByte(st, CR), LF) == CookByte(Settled(st), LF)
  {
  }

  lemma {:induction false} UnifiedCooksAlike(st: State, input: Bytes)
    requires input != "" && input[0] == LF ==> !st.prevCR
    ensures Settled(CookAll(st, input)) == CookAll(Settled(st), Unified(input))
    decreases |input|
  {
    if input != "" && !st.eof {
      var c, rest := input[0], input[1..];
      if c == CR {
        EndsAlike(st);
        if rest != "" && rest[0] == LF {
          UnifiedCooksAlike(CookByte(CookByte(st, CR), LF), rest[1..]);
          assert input[2..] == rest[1..];
          assert CookAll(st, input) == CookAll(CookByte(st, CR), rest);
        } else {
          UnifiedCooksAlike(CookByte(st, CR), rest);
        }
      } else {
        assert Settled(CookByte(st, c)) == CookByte(st, c) == CookByte(Settled(st), c);
        UnifiedCooksAlike(CookByte(st, c), rest);
      }
    }
  }

  // CR, LF and CR LF are one key: any input delivers and echoes what it does with a plain
  // line feed for each of them.
  lemma NewlinesAlike(input: Bytes)
    ensures Settled(CookAll(START, input)) == CookAll(START, Unified(input))
  {
    UnifiedCooksAlike(START, input);
  }

  predicate PrintableText(w: Bytes) {
    forall i :: 0 <= i < |w| ==> Printable(w[i])
  }

  // Printable text joins the line and shows as it is.
  lemma {:induction false} TextIsTyped(st: State, w: Bytes)
    requires !st.eof && PrintableText(w) && |st.line| + |w| < MAX_COOKED_LINE && (w == "" ==> !st.prevCR)
    ensures CookAll(st, w) == st.(line := st.line + w, echo := st.echo + w, prevCR := false)
    decreases |w|
  {
    if w == "" {
      assert st.line + w == st.line && st.echo + w == st.echo;
    } else {
      var st' := st.(line := st.line + [w[0]], echo := st.echo + [w[0]], prevCR := false);
      TextIsTyped(st', w[1..]);
      assert st.line + [w[0]] + w[1..] == st.line + w && st.echo + [w[0]] + w[1..] == st.echo + w;
    }
  }

  // A line typed on an empty one and ended in any of the three ways is delivered once,
  // with one line feed, and shown once.
  lemma LineIsDelivered(st: State, w: Bytes, end: Bytes)
    requires !st.eof && st.line == "" && PrintableText(w) && |w| < MAX_COOKED_LINE
    requires end == [CR] || end == [LF] || end == [CR, LF]
    requires w == "" ==> !st.prevCR
    ensures Settled(CookAll(st, w + end))
         == st.(pending := st.pending + w + [LF], echo := st.echo + w + [CR, LF], prevCR := false)
    ensures CookAll(st, w + end).prevCR <==> end == [CR]
  {
    TextIsTyped(st, w);
    CookConcat(st, w, end);
    var typed := CookAll(st, w);
    assert typed.line == w;
    CookOne(typed, CR);
    CookOne(typed, LF);
    CookTwo(typed, CR, LF);
    CookOne(CookByte(typed, CR), LF);
  }

  // Text in lines, each ended by a line feed.
  function Lined(ws: seq<Bytes>): Bytes {
    if ws == [] then "" else ws[0] + [LF] + Lined(ws[1..])
  }

  // What is typed is what is read: any printable lines below the limit.
  lemma {:induction false} LinesAreDelivered(st: State, ws: seq<Bytes>)
    requires !st.eof && st.line == "" && !st.prevCR
    requires forall w :: w in ws ==> PrintableText(w) && |w| < MAX_COOKED_LINE
    ensures CookAll(st, Lined(ws)).pending == st.pending + Lined(ws)
    ensures CookAll(st, Lined(ws)).line == "" && !CookAll(st, Lined(ws)).eof
    decreases |ws|
  {
    if ws == [] {
      assert st.pending + "" == st.pending;
    } else {
      var w := ws[0];
      assert w in ws;
      LineIsDelivered(st, w, [LF]);
      CookConcat(st, w + [LF], Lined(ws[1..]));
      LinesAreDelivered(CookAll(st, w + [LF]), ws[1..]);
      ConcatAssociates(st.pending, w + [LF], Lined(ws[1..]));
      ConcatAssociates(st.pending, w, [LF]);
    }
  }

  // A character typed and erased again leaves nothing to deliver.
  lemma EraseUndoes(st: State, c: char, erase: char)
    requires !st.eof && Printable(c) && (erase == DEL || erase == BS) && |st.line| + 1 < MAX_COOKED_LINE
    ensures CookAll(st, [c, erase]) == st.(echo := st.echo + [c] + [BS, SPACE, BS], prevCR := false)
  {
    CookTwo(st, c, erase);
    CookOne(st, c);
    CookOne(CookByte(st, c), erase);
    TypedAndErased(st.line, c);
  }

  lemma TypedAndErased(line: Bytes, c: char)
    ensures (line + [c])[..|line|] == line
  {
  }

  // On an empty line there is nothing to erase; Ctrl-D on a line that has text does
  // nothing; Ctrl-C drops the line and delivers an empty one.
  lemma KeysDo(st: State, erase: char)
    requires !st.eof && (erase == DEL || erase == BS)
    ensures st.line == "" ==> CookAll(st, [erase]) == Settled(st)
    ensures st.line != "" ==> CookAll(st, [CTRL_D]) == Settled(st)
    ensures CookAll(st, [CTRL_C])
         == st.(pending := st.pending + [LF], line := "", echo := st.echo + ['^', 'C', CR, LF], prevCR := false)
  {
    CookOne(st, erase);
    CookOne(st, CTRL_D);
    CookOne(st, CTRL_C);
  }

  lemma ControlIgnored(st: State, c: char)
    requires !st.eof && c < SPACE && c !in {CR, LF, BS, CTRL_C, CTRL_D}
    ensures CookAll(st, [c]) == Settled(st)
  {
    CookOne(st, c);
  }

  // A line that reaches the limit is delivered without waiting for its end.
  lemma LongLineIsDelivered(st: State, front: Bytes, last: char)
    requires !st.eof && !st.prevCR && st.line == "" && PrintableText(front) && Printable(last)
    requires |front + [last]| == MAX_COOKED_LINE
    ensures CookAll(st, front + [last])
         == EndLine(st.(line := front + [last], echo := st.echo + front + [last]))
  {
    TextIsTyped(st, front);
    CookConcat(st, front, [last]);
    var typed := st.(line := front, echo := st.echo + front);
    assert st.line + front == front;
    CookOne(typed, last);
    LastCharacter(typed, last);
  }

  lemma LastCharacter(st: State, c: char)
    requires Printable(c) && |st.line| + 1 == MAX_COOKED_LINE
    ensures CookByte(st, c) == EndLine(st.(line := st.line + [c], echo := st.echo + [c], prevCR := false))
  {
  }

  // ---- the client's screen ----

  // Rows already left by a line feed, the row the cursor is on, and its column.
  datatype Screen = Screen(rows: seq<string>, row: string, col: nat)

  const BLANK := Screen([], "", 0)

  function Plot(s: Screen, c: char): Screen {
    if c == BS then s.(col := if s.col == 0 then 0 else s.col - 1)
    else if c == CR then s.(col := 0)
    else if c == LF then Screen(s.rows + [s.row], "", 0)
    else if s.col < |s.row| then s.(row := s.row[s.col := c], col := s.col + 1)
    else s.(row := s.row + [c], col := |s.row| + 1)
  }

  function Replay(s: Screen, echo: Bytes): Screen
    decreases |echo|
  {
    if echo == "" then s else Replay(Plot(s, echo[0]), echo[1..])
  }

  lemma {:induction false} ReplayConcat(s: Screen, a: Bytes, b: Bytes)
    ensures Replay(s, a + b) == Replay(Replay(s, a), b)
    decreases |a|
  {
    if a == "" {
      assert a + b == b;
    } else {
      assert (a + b)[1..] == a[1..] + b;
      ReplayConcat(Plot(s, a[0]), a[1..], b);
    }
  }

  // ---- what happened, line by line ----

  // A line that was entered, or one abandoned with Ctrl-C.
  datatype Line = Entered(text: Bytes) | Abandoned(text: Bytes)

  // The bytes a list of lines hands to the reader: an abandoned line is empty.
  function Delivery(lines: seq<Line>): Bytes {
    if lines == [] then ""
    else
      var last := lines[|lines| - 1];
      Delivery(lines[..|lines| - 1]) + (if last.Entered? then last.text else "") + [LF]
  }

  predicate Blank(s: string) {
    forall i :: 0 <= i < |s| ==> s[i] == SPACE
  }

  // A row that shows `text`, then only erased cells.
  predicate Shows(row: string, text: string) {
    text <= row && Blank(row[|text|..])
  }

  predicate RowShows(row: string, line: Line) {
    Shows(row, if line.Entered? then line.text else line.text + "^C")
  }

  predicate RowsShow(rows: seq<string>, lines: seq<Line>) {
    var n := |lines|;
    && |rows| == n
    && (n > 0 ==> RowShows(rows[n - 1], lines[n - 1]) && RowsShow(rows[..n - 1], lines[..n - 1]))
  }

  lemma RowsAppend(rows: seq<string>, row: string, lines: seq<Line>, line: Line)
    requires RowsShow(rows, lines) && RowShows(row, line)
    ensures RowsShow(rows + [row], lines + [line])
  {
    assert (rows + [row])[..|lines|] == rows && (lines + [line])[..|lines|] == lines;
  }

  lemma {:induction false} RowsShowEach(rows: seq<string>, lines: seq<Line>, i: nat)
    requires RowsShow(rows, lines) && i < |lines|
    ensures RowShows(rows[i], lines[i])
  {
    if i < |lines| - 1 {
      RowsShowEach(rows[..|lines| - 1], lines[..|lines| - 1], i);
    }
  }

  // Screen, delivery and edit buffer tell the same story, `lines` so far.
  ghost predicate Agrees(st: State, screen: Screen, lines: seq<Line>) {
    && st.pending == Delivery(lines)
    && RowsShow(screen.rows, lines)
    && screen.col == |st.line| && Shows(screen.row, st.line)
    && |st.line| < MAX_COOKED_LINE
  }

  lemma PlotPrintable(screen: Screen, line: string, c: char)
    requires screen.col == |line| && Shows(screen.row, line) && c >= SPACE
    ensures var s := Plot(screen, c);
            s.rows == screen.rows && s.col == |line| + 1 && Shows(s.row, line + [c])
  {
    var s := Plot(screen, c);
    assert line + [c] <= s.row;
    var rest := s.row[|line| + 1..];
    forall i | 0 <= i < |rest| ensures rest[i] == SPACE {
      assert rest[i] == screen.row[|line| + 1 + i] == screen.row[|line|..][i + 1];
    }
  }

  lemma PlotErase(screen: Screen, line: string)
    requires line != "" && screen.col == |line| && Shows(screen.row, line)
    ensures var s := Replay(screen, [BS, SPACE, BS]);
            s.rows == screen.rows && s.col == |line| - 1 && Shows(s.row, line[..|line| - 1])
  {
    var k := |line| - 1;
    var s1 := Plot(screen, BS);
    var s2 := Plot(s1, SPACE);
    var s3 := Plot(s2, BS);
    assert [BS, SPACE, BS][1..] == [SPACE, BS] && [SPACE, BS][1..] == [BS] && [BS][1..] == "";
    assert Replay(screen, [BS, SPACE, BS]) == Replay(s1, [SPACE, BS]) == Replay(s2, [BS]) == Replay(s3, "");
    assert s3.row == screen.row[k := SPACE];
    assert line[..k] <= s3.row;
    var rest := s3.row[k..];
    forall i | 0 <= i < |rest| ensures rest[i] == SPACE {
      if i > 0 {
        assert rest[i] == screen.row[k + i] == screen.row[|line|..][i - 1];
      }
    }
  }

  lemma PlotNewline(screen: Screen)
    ensures Replay(screen, [CR, LF]) == Screen(screen.rows + [screen.row], "", 0)
  {
    assert [CR, LF][1..] == [LF] && [LF][1..] == "";
    assert Replay(Plot(screen, CR), [LF]) == Replay(Plot(Plot(screen, CR), LF), "");
  }

  lemma PlotInterrupt(screen: Screen, line: string)
    requires screen.col == |line| && Shows(screen.row, line)
    ensures var s := Replay(screen, ['^', 'C', CR, LF]);
            && |s.rows| == |screen.rows| + 1 && s.rows == screen.rows + [s.rows[|screen.rows|]]
            && Shows(s.rows[|screen.rows|], line + "^C")
            && s.row == "" && s.col == 0
  {
    PlotPrintable(screen, line, '^');
    var s1 := Plot(screen, '^');
    PlotPrintable(s1, line + ['^'], 'C');
    var s2 := Plot(s1, 'C');
    assert line + ['^'] + ['C'] == line + "^C";
    assert ['^', 'C', CR, LF][1..] == ['C', CR, LF] && ['C', CR, LF][1..] == [CR, LF];
    assert Replay(screen, ['^', 'C', CR, LF]) == Replay(s1, ['C', CR, LF]) == Replay(s2, [CR, LF]);
    PlotNewline(s2);
  }

  lemma LineDelivered(lines: seq<Line>, line: Line)
    ensures Delivery(lines + [line]) == Delivery(lines) + (if line.Entered? then line.text else "") + [LF]
  {
    assert (lines + [line])[..|lines|] == lines;
  }

  lemma EndLineAgrees(st: State, screen: Screen, lines: seq<Line>)
    requires st.pending == Delivery(lines)
    requires RowsShow(screen.rows, lines)
    requires screen.col == |st.line| && Shows(screen.row, st.line)
    ensures Agrees(EndLine(st), Replay(screen, [CR, LF]), lines + [Entered(st.line)])
  {
    PlotNewline(screen);
    LineDelivered(lines, Entered(st.line));
    RowsAppend(screen.rows, screen.row, lines, Entered(st.line));
  }

  // What one byte echoes, and the line it finishes, if any.
  function Echoed(st: State, c: char): Bytes {
    if c == CR then [CR, LF]
    else if c == LF then if st.prevCR then "" else [CR, LF]
    else if c == DEL || c == BS then if st.line == "" then "" else [BS, SPACE, BS]
    else if c == CTRL_C then ['^', 'C', CR, LF]
    else if c == CTRL_D || c < SPACE then ""
    else if |st.line| + 1 >= MAX_COOKED_LINE then [c] + [CR, LF]
    else [c]
  }

  function Finished(st: State, c: char): seq<Line> {
    if c == CR then [Entered(st.line)]
    else if c == LF then if st.prevCR then [] else [Entered(st.line)]
    else if c == CTRL_C then [Abandoned(st.line)]
    else if c >= SPACE && c != DEL && |st.line| + 1 >= MAX_COOKED_LINE then [Entered(st.line + [c])]
    else []
  }

  lemma EchoedIsEcho(st: State, c: char)
    ensures CookByte(st, c).echo == st.echo + Echoed(st, c)
  {
    if c >= SPACE && c != DEL {
      assert st.echo + [c] + [CR, LF] == st.echo + ([c] + [CR, LF]);
    } else {
      assert st.echo + "" == st.echo;
    }
  }

  lemma InterruptAgrees(st: State, screen: Screen, lines: seq<Line>)
    requires Agrees(st, screen, lines)
    ensures Agrees(CookByte(st, CTRL_C), Replay(screen, ['^', 'C', CR, LF]), lines + [Abandoned(st.line)])
  {
    PlotInterrupt(screen, st.line);
    LineDelivered(lines, Abandoned(st.line));
    RowsAppend(screen.rows, Replay(screen, ['^', 'C', CR, LF]).rows[|lines|], lines, Abandoned(st.line));
  }

  lemma ReplayOne(screen: Screen, c: char)
    ensures Replay(screen, [c]) == Plot(screen, c)
  {
    assert Replay(screen, [c]) == Replay(Plot(screen, c), "");
  }

  lemma PrintableAgrees(st: State, screen: Screen, lines: seq<Line>, c: char)
    requires Agrees(st, screen, lines) && c >= SPACE && c != DEL
    requires |st.line| + 1 < MAX_COOKED_LINE
    ensures Agrees(CookByte(st, c), Replay(screen, [c]), lines)
  {
    PlotPrintable(screen, st.line, c);
    ReplayOne(screen, c);
  }

  lemma LongLineAgrees(st: State, screen: Screen, lines: seq<Line>, c: char)
    requires Agrees(st, screen, lines) && c >= SPACE && c != DEL
    requires |st.line| + 1 >= MAX_COOKED_LINE
    ensures Agrees(CookByte(st, c), Replay(screen, [c] + [CR, LF]), lines + [Entered(st.line + [c])])
  {
    PlotPrintable(screen, st.line, c);
    ReplayOne(screen, c);
    ReplayConcat(screen, [c], [CR, LF]);
    var full := st.(prevCR := false, line := st.line + [c], echo := st.echo + [c]);
    EndLineAgrees(full, Plot(screen, c), lines);
    assert CookByte(st, c) == EndLine(full);
  }

  // One byte keeps screen, delivery and buffer in agreement.
  lemma ByteAgrees(st: State, screen: Screen, lines: seq<Line>, c: char)
    requires Agrees(st, screen, lines)
    ensures Agrees(CookByte(st, c), Replay(screen, Echoed(st, c)), lines + Finished(st, c))
  {
    assert lines + [] == lines;
    if c == CR || (c == LF && !st.prevCR) {
      EndLineAgrees(st.(prevCR := false), screen, lines);
    } else if c == DEL || c == BS {
      if st.line != "" {
        PlotErase(screen, st.line);
      }
    } else if c == CTRL_C {
      InterruptAgrees(st, screen, lines);
    } else if c >= SPACE {
      if |st.line| + 1 >= MAX_COOKED_LINE {
        LongLineAgrees(st, screen, lines, c);
      } else {
        PrintableAgrees(st, screen, lines, c);
      }
    }
  }

  // The lines that typing `input` finishes.
  function LinesOf(st: State, input: Bytes): seq<Line>
    decreases |input|
  {
    if input == "" || st.eof then [] else Finished(st, input[0]) + LinesOf(CookByte(st, input[0]), input[1..])
  }

  lemma ByteReplayed(st: State, lines: seq<Line>, c: char)
    requires Agrees(st, Replay(BLANK, st.echo), lines)
    ensures Agrees(CookByte(st, c), Replay(BLANK, CookByte(st, c).echo), lines + Finished(st, c))
  {
    ByteAgrees(st, Replay(BLANK, st.echo), lines, c);
    EchoedIsEcho(st, c);
    ReplayConcat(BLANK, st.echo, Echoed(st, c));
  }

  lemma {:induction false} CookAgrees(st: State, input: Bytes, lines: seq<Line>)
    requires Agrees(st, Replay(BLANK, st.echo), lines)
    ensures Agrees(CookAll(st, input), Replay(BLANK, CookAll(st, input).echo), lines + LinesOf(st, input))
    decreases |input|
  {
    if input == "" || st.eof {
      assert lines + [] == lines;
    } else {
      var c := input[0];
      ByteReplayed(st, lines, c);
      CookAgrees(CookByte(st, c), input[1..], lines + Finished(st, c));
      ConcatAssociates(lines, Finished(st, c), LinesOf(CookByte(st, c), input[1..]));
    }
  }

  // For every input, screen and reader show the same lines: each finished row is its line
  // (with "^C" where it was abandoned), the reader got the entered lines and an empty one
  // for each abandoned, and the row the cursor is on is the edit buffer, which stays short.
  lemma ScreenMatchesDelivery(input: Bytes)
    ensures var st := CookAll(START, input);
            var screen := Replay(BLANK, st.echo);
            var lines := LinesOf(START, input);
            && st.pending == Delivery(lines)
            && |screen.rows| == |lines|
            && (forall i :: 0 <= i < |lines| ==> RowShows(screen.rows[i], lines[i]))
            && screen.col == |st.line| && Shows(screen.row, st.line)
            && |st.line| < MAX_COOKED_LINE
  {
    var lines := LinesOf(START, input);
    assert Agrees(START, Replay(BLANK, ""), []);
    CookAgrees(START, input, []);
    assert [] + lines == lines;
    var screen := Replay(BLANK, CookAll(START, input).echo);
    forall i | 0 <= i < |lines| ensures RowShows(screen.rows[i], lines[i]) {
      RowsShowEach(screen.rows, lines, i);
    }
  }

  // Once Ctrl-D is typed on an empty line, nothing typed later is delivered or echoed.
  lemma NothingAfterEof(input: Bytes, later: Bytes)
    requires CookAll(START, input).line == ""
    ensures CookAll(START, input + [CTRL_D] + later) == CookAll(START, input + [CTRL_D])
    ensures CookAll(START, input + [CTRL_D]).eof
    ensures CookAll(START, input + [CTRL_D]).pending == CookAll(START, input).pending
    ensures CookAll(START, input + [CTRL_D]).echo == CookAll(START, input).echo
  {
    var st := CookAll(START, input);
    CookConcat(START, input, [CTRL_D]);
    CookConcat(START, input + [CTRL_D], later);
    assert [CTRL_D][1..] == "";
    assert CookAll(st, [CTRL_D]) == if st.eof then st else CookAll(CookByte(st, CTRL_D), "");
  }

  // ---- the reader object ----

  class CookedTTY {
    var input: seq<Bytes>      // chunks the channel will still give
    var echo: Bytes            // what was written to the channel
    var pending: Bytes         // cooked, not yet read
    var line: Bytes
    var prevCR: bool
    var eof: bool
    ghost var delivered: Bytes // already read

    function View(): State
      reads this
    {
      State(pending, line, prevCR, eof, echo)
    }

    // The same with everything ever handed over in place of what is still pending.
    ghost function Total(): State
      reads this
    {
      State(delivered + pending, line, prevCR, eof, echo)
    }

    constructor (input: seq<Bytes>)
      ensures Total() == START && this.input == input && delivered == "" && pending == ""
    {
      this.input := input;
      echo, pending, line, prevCR, eof := "", "", "", false, false;
      delivered := "";
    }

    method FinishLine()
      modifies this`echo, this`pending, this`line
      ensures View() == EndLine(old(View()))
    {
      echo := echo + [CR, LF];
      pending := pending + line;
      pending := pending + [LF];
      line := "";
    }

    method Cook(buf: Bytes)
      requires !eof
      modifies this`echo, this`pending, this`line, this`prevCR, this`eof
      ensures View() == CookAll(old(View()), buf)
    {
      var i := 0;
      while i < |buf|
        invariant i <= |buf| && !eof
        invariant CookAll(View(), buf[i..]) == CookAll(old(View()), buf)
      {
        assert buf[i..][1..] == buf[i + 1..];
        ghost var at := View();
        var c := buf[i];
        i := i + 1;
        var cr := prevCR;
        prevCR := false;
        if c == CR {
          FinishLine();
          prevCR := true;
        } else if c == LF {
          if cr {
            continue;
          }
          FinishLine();
        } else if c == DEL || c == BS {
          if |line| > 0 {
            line := line[..|line| - 1];
            echo := echo + [BS, SPACE, BS];
          }
        } else if c == CTRL_C {
          echo := echo + ['^', 'C', CR, LF];
          line := "";
          pending := pending + [LF];
        } else if c == CTRL_D {
          if |line| == 0 {
            eof := true;
            return;
          }
        } else if c >= SPACE {
          line := line + [c];
          echo := echo + [c];
          if |line| >= MAX_COOKED_LINE {
            FinishLine();
          }
        }
        assert View() == CookByte(at, c);
      }
    }

    // Hands out pending bytes, cooking more chunks while there are none.  `n == 0` with
    // `end` is the end of the stream.
    method Read(p: array<char>) returns (n: nat, end: bool)
      requires p.Length > 0
      modifies this, p
      ensures n <= p.Length
      ensures delivered == old(delivered) + p[..n]
      ensures end <==> n == 0
      ensures end ==> pending == "" && (eof || input == [])
      ensures CookChunks(Total(), input) == CookChunks(old(Total()), old(input))
      ensures |input| < |old(input)| || (|input| == |old(input)| && (end || |pending| < |old(pending)|))
    {
      while |pending| == 0
        invariant delivered == old(delivered)
        invariant |input| <= |old(input)| && (|input| == |old(input)| ==> pending == old(pending))
        invariant CookChunks(Total(), input) == CookChunks(old(Total()), old(input))
        decreases |input|
      {
        if eof || input == [] {
          return 0, true;
        }
        var buf := input[0];
        input := input[1..];
        PendingAfter(View(), delivered, buf);
        Cook(buf);
      }
      n := if p.Length < |pending| then p.Length else |pending|;
      forall i | 0 <= i < n {
        p[i] := pending[i];
      }
      assert pending == p[..n] + pending[n..];
      assert delivered + p[..n] + pending[n..] == delivered + pending;
      delivered := delivered + p[..n];
      pending := pending[n..];
      end := false;
    }

    // Reads buffers of the given size until the end: all that cooking the whole input
    // delivers, whatever the chunks and the buffer.
    method ReadToEnd(size: nat) returns (all: Bytes)
      requires size > 0
      modifies this
      ensures delivered == old(delivered) + all
      ensures delivered == CookChunks(old(Total()), old(input)).pending
    {
      all := "";
      var end := false;
      while !end
        invariant delivered == old(delivered) + all
        invariant CookChunks(Total(), input) == CookChunks(old(Total()), old(input))
        invariant end ==> pending == "" && (eof || input == [])
        decreases !end, |input|, |pending|
      {
        var p := new char[size];
        var n;
        n, end := Read(p);
        all := all + p[..n];
      }
      EofAbsorbs(Total(), input);
    }
  }

  lemma {:induction false} EofAbsorbs(st: State, chunks: seq<Bytes>)
    requires st.eof || chunks == []
    ensures CookChunks(st, chunks) == st
    decreases |chunks|
  {
    if chunks != [] {
      EofAbsorbs(st, chunks[1..]);
    }
  }

  // Cooking adds to what is pending and does not look at it.
  lemma {:induction false} PendingAfter(st: State, before: Bytes, input: Bytes)
    ensures CookAll(st.(pending := before + st.pending), input)
         == CookAll(st, input).(pending := before + CookAll(st, input).pending)
    decreases |input|
  {
    if input != "" && !st.eof {
      var st' := CookByte(st, input[0]);
      assert before + (st.pending + st.line + [LF]) == (before + st.pending) + st.line + [LF];
      assert before + (st.pending + (st.line + [input[0]]) + [LF]) == (before + st.pending) + (st.line + [input[0]]) + [LF];
      assert before + (st.pending + [LF]) == (before + st.pending) + [LF];
      assert CookByte(st.(pending := before + st.pending), input[0]) == st'.(pending := before + st'.pending);
      PendingAfter(st', before, input[1..]);
    }
  }
}
