// The event feed: a server-sent stream of log lines that a client can resume by byte
// offset (the Last-Event-ID header, section 9.2 of the WHATWG HTML Standard).
module Feed {
  import opened Basics

  type Bytes = string

  const LF := 10 as char
  const CR := 13 as char

  // One `log` event: the byte offset just past the line, and the line.
  datatype Frame = Frame(id: nat, line: Bytes)

  // `strings.TrimRight(raw, "\r\n")`
  function TrimEol(raw: Bytes): Bytes {
    raw[..TrimmedLength(raw, |raw|)]
  }

  // How much of the first `n` bytes precedes their trailing line-end bytes.
  function TrimmedLength(raw: Bytes, n: nat): (k: nat)
    requires n <= |raw|
    ensures k <= n
  {
    if n > 0 && (raw[n - 1] == LF || raw[n - 1] == CR) then TrimmedLength(raw, n - 1) else n
  }

  // Just past the next newline at or after `i`.
  function LineEnd(log: Bytes, i: nat): (end: Option<nat>)
    ensures end.Some? ==> i < end.value <= |log| && log[end.value - 1] == LF
    decreases |log| - i
  {
    if i >= |log| then None
    else if log[i] == LF then Some(i + 1)
    else LineEnd(log, i + 1)
  }

  function FrameFor(raw: Bytes, end: nat): seq<Frame> {
    if TrimEol(raw) == "" then [] else [Frame(end, TrimEol(raw))]
  }

  // The reference: a frame for every complete, non-blank line from offset `a` that ends
  // by offset `b`.
  function FramesIn(log: Bytes, a: nat, b: nat): seq<Frame>
    requires a <= b <= |log|
    decreases b - a
  {
    var end := LineEnd(log, a);
    if end.None? || end.value > b then []
    else FrameFor(log[a..end.value], end.value) + FramesIn(log, end.value, b)
  }

  function FramesOf(log: Bytes, a: nat): seq<Frame>
    requires a <= |log|
  {
    FramesIn(log, a, |log|)
  }

  // `b` is `a` or just past a newline after it.
  predicate LineBoundary(log: Bytes, a: nat, b: nat) {
    a <= b <= |log| && (a == b || log[b - 1] == LF)
  }

  // ---- the system ----

  // The server's side of one connection: the resumable offset, the reader's position in
  // the file, the unfinished line, and the frames written but not yet received.
  datatype Conn = Conn(offset: nat, pos: nat, partial: Bytes, wire: seq<Frame>)

  // The client: everything received, the last id, where its stream began, and where its
  // first connection did.
  datatype Client = Client(received: seq<Frame>, lastId: Option<nat>, start: nat, first: Option<nat>)

  datatype World = World(log: Bytes, conn: Option<Conn>, client: Client)

  const NEW := World("", None, Client([], None, 0, None))

  // Where a connection starts, given the file size and the Last-Event-ID header.
  function StartOffset(size: nat, header: Option<int>): nat {
    if header.Some? && 0 <= header.value <= size then header.value else size
  }

  // One turn of the reading loop: up to and past the next newline, or to the end of file.
  function Pull(c: Conn, log: Bytes): Conn
    requires c.pos <= |log|
  {
    var end := LineEnd(log, c.pos);
    if end.None? then c.(pos := |log|, partial := c.partial + log[c.pos..])
    else
      var raw := c.partial + log[c.pos..end.value];
      Conn(c.offset + |raw|, end.value, "", c.wire + FrameFor(raw, c.offset + |raw|))
  }

  datatype Step =
    | Append(bytes: Bytes)   // the log grows, by whole lines or by pieces
    | PullLine               // the server reads on
    | Deliver                // a frame reaches the client
    | Disconnect             // the connection ends; what is on the wire is lost
    | Connect                // the client connects, with its last id if it has one

  predicate Enabled(w: World, step: Step) {
    match step
    case Append(_) => true
    case PullLine => w.conn.Some? && w.conn.value.pos <= |w.log|
    case Deliver => w.conn.Some? && w.conn.value.wire != []
    case Disconnect => w.conn.Some?
    case Connect => w.conn.None?
  }

  function Next(w: World, step: Step): World
    requires Enabled(w, step)
  {
    match step
    case Append(bytes) => w.(log := w.log + bytes)
    case PullLine => w.(conn := Some(Pull(w.conn.value, w.log)))
    case Deliver =>
      var c := w.conn.value;
      w.(conn := Some(c.(wire := c.wire[1..])),
         client := w.client.(received := w.client.received + [c.wire[0]], lastId := Some(c.wire[0].id)))
    case Disconnect => w.(conn := None)
    case Connect =>
      var at := StartOffset(|w.log|, w.client.lastId);
      w.(conn := Some(Conn(at, at, "", [])),
         client := w.client.(
           start := if w.client.lastId.None? then at else w.client.start,
           first := if w.client.first.None? then Some(at) else w.client.first))
  }

  ghost predicate Schedule(w: World, steps: seq<Step>)
    decreases |steps|
  {
    steps == [] || (Enabled(w, steps[0]) && Schedule(Next(w, steps[0]), steps[1..]))
  }

  ghost function After(w: World, steps: seq<Step>): World
    requires Schedule(w, steps)
    decreases |steps|
  {
    if steps == [] then w else After(Next(w, steps[0]), steps[1..])
  }

  // Up to where the client has everything.
  function Acked(client: Client): nat {
    if client.lastId.Some? then client.lastId.value else client.start
  }

  ghost predicate ConnSound(log: Bytes, acked: nat, c: Conn)
    requires acked <= |log|
  {
    && LineBoundary(log, acked, c.offset)
    && c.offset <= c.pos <= |log|
    && c.partial == log[c.offset..c.pos] && LF !in c.partial
    && c.wire == FramesIn(log, acked, c.offset)
  }

  ghost predicate Sound(w: World) {
    var acked := Acked(w.client);
    && LineBoundary(w.log, w.client.start, acked)
    && w.client.received == FramesIn(w.log, w.client.start, acked)
    && (w.conn.Some? ==> ConnSound(w.log, acked, w.conn.value))
    && (w.client.first.Some? ==> w.client.first.value <= w.client.start)
    && (w.client.lastId.Some? ==> w.client.first.Some?)
    && (w.conn.Some? ==> w.client.first.Some?)
  }

  // ---- frames of a growing log ----

  lemma {:induction false} LineEndAppend(log: Bytes, x: Bytes, i: nat)
    requires i <= |log|
    ensures LineEnd(log, i).Some? ==> LineEnd(log + x, i) == LineEnd(log, i)
    ensures LineEnd(log, i).None? ==> LineEnd(log + x, i).None? || LineEnd(log + x, i).value > |log|
    decreases |log| - i
  {
    if i < |log| && log[i] != LF {
      LineEndAppend(log, x, i + 1);
    }
  }

  // Frames already complete stay as they are when the log grows.
  lemma {:induction false} FramesAppend(log: Bytes, x: Bytes, a: nat, b: nat)
    requires a <= b <= |log|
    ensures FramesIn(log + x, a, b) == FramesIn(log, a, b)
    decreases b - a
  {
    LineEndAppend(log, x, a);
    var end := LineEnd(log, a);
    if end.Some? && end.value <= b {
      assert (log + x)[a..end.value] == log[a..end.value];
      FramesAppend(log, x, end.value, b);
    }
  }

  lemma {:induction false} LineEndBefore(log: Bytes, a: nat, b: nat)
    requires a < b <= |log| && log[b - 1] == LF
    ensures LineEnd(log, a).Some? && LineEnd(log, a).value <= b
    decreases b - a
  {
    if log[a] != LF {
      LineEndBefore(log, a + 1, b);
    }
  }

  // The frames up to `c` are those up to a boundary `b` and then those from `b`.
  lemma {:induction false} FramesSplit(log: Bytes, a: nat, b: nat, c: nat)
    requires LineBoundary(log, a, b) && b <= c <= |log|
    ensures FramesIn(log, a, c) == FramesIn(log, a, b) + FramesIn(log, b, c)
    decreases b - a
  {
    if a < b {
      LineEndBefore(log, a, b);
      var end := LineEnd(log, a).value;
      FramesSplit(log, end, b, c);
      ConcatAssociates(FrameFor(log[a..end], end), FramesIn(log, end, b), FramesIn(log, b, c));
    }
  }

  // The first frame ends at its id, and the rest are the frames from there.
  lemma {:induction false} FirstFrame(log: Bytes, a: nat, b: nat, f: Frame)
    requires a <= b <= |log| && FramesIn(log, a, b) != [] && f == FramesIn(log, a, b)[0]
    ensures LineBoundary(log, a, f.id) && a < f.id <= b
    ensures FramesIn(log, a, f.id) == [f]
    ensures FramesIn(log, a, b) == [f] + FramesIn(log, f.id, b)
    decreases b - a
  {
    var end := LineEnd(log, a).value;
    var own := FrameFor(log[a..end], end);
    if own == [] {
      SkipBlank(log, a, b, end);
      FirstFrame(log, end, b, f);
      SkipBlank(log, a, f.id, end);
    } else {
      assert own == [f] && FramesIn(log, end, end) == [];
      assert own + [] == own;
    }
  }

  lemma SkipBlank(log: Bytes, a: nat, b: nat, end: nat)
    requires a <= b <= |log| && LineEnd(log, a) == Some(end) && end <= b
    requires FrameFor(log[a..end], end) == []
    ensures FramesIn(log, a, b) == FramesIn(log, end, b)
  {
    assert [] + FramesIn(log, end, b) == FramesIn(log, end, b);
  }

  // Ids ascend, and each is the offset just past a newline.
  ghost predicate IdsAreSound(log: Bytes, a: nat, frames: seq<Frame>) {
    && (forall i :: 0 <= i < |frames| ==> a < frames[i].id <= |log| && log[frames[i].id - 1] == LF)
    && (forall i, j :: 0 <= i < j < |frames| ==> frames[i].id < frames[j].id)
  }

  lemma {:induction false} IdsAreOffsets(log: Bytes, a: nat)
    requires a <= |log|
    ensures IdsAreSound(log, a, FramesOf(log, a))
    decreases |log| - a
  {
    var end := LineEnd(log, a);
    if end.Some? {
      IdsAreOffsets(log, end.value);
      IdsJoin(log, a, FrameFor(log[a..end.value], end.value), FramesOf(log, end.value), end.value);
    }
  }

  lemma IdsJoin(log: Bytes, a: nat, own: seq<Frame>, tail: seq<Frame>, end: nat)
    requires a < end <= |log| && log[end - 1] == LF
    requires |own| <= 1 && (own != [] ==> own[0].id == end)
    requires IdsAreSound(log, end, tail)
    ensures IdsAreSound(log, a, own + tail)
  {
    assert own == [] ==> own + tail == tail;
  }

  // ---- every step ----

  lemma AppendIsSound(w: World, bytes: Bytes)
    requires Sound(w)
    ensures Sound(Next(w, Append(bytes)))
  {
    var acked := Acked(w.client);
    FramesAppend(w.log, bytes, w.client.start, acked);
    if w.conn.Some? {
      var c := w.conn.value;
      FramesAppend(w.log, bytes, acked, c.offset);
      assert (w.log + bytes)[c.offset..c.pos] == w.log[c.offset..c.pos];
    }
  }

  // The line read off the file, with what was kept of it, is the line of the log.
  lemma PullIsSound(log: Bytes, acked: nat, c: Conn)
    requires acked <= |log| && ConnSound(log, acked, c)
    ensures ConnSound(log, acked, Pull(c, log))
  {
    var end := LineEnd(log, c.pos);
    if end.None? {
      RestIsSound(log, acked, c);
    } else {
      LinePullIsSound(log, acked, c, end.value);
    }
  }

  lemma LinePullIsSound(log: Bytes, acked: nat, c: Conn, e: nat)
    requires acked <= |log| && ConnSound(log, acked, c) && LineEnd(log, c.pos) == Some(e)
    ensures ConnSound(log, acked, Pull(c, log))
  {
    LinePulled(log, acked, c, e);
    StartsLine(log, acked, e, Pull(c, log));
  }

  lemma LinePulled(log: Bytes, acked: nat, c: Conn, e: nat)
    requires acked <= |log| && ConnSound(log, acked, c) && LineEnd(log, c.pos) == Some(e)
    ensures LineBoundary(log, acked, e) && Pull(c, log) == Conn(e, e, "", FramesIn(log, acked, e))
  {
    LineIsSound(log, acked, c, e);
    PulledLine(log, acked, c, e);
  }

  lemma RestIsSound(log: Bytes, acked: nat, c: Conn)
    requires acked <= |log| && ConnSound(log, acked, c) && LineEnd(log, c.pos).None?
    ensures ConnSound(log, acked, Pull(c, log))
  {
    RestIsPartial(log, c.offset, c.pos);
  }

  lemma PulledLine(log: Bytes, acked: nat, c: Conn, e: nat)
    requires c.offset <= c.pos && acked <= e && LineEnd(log, c.pos) == Some(e)
    requires c.partial + log[c.pos..e] == log[c.offset..e]
    requires c.wire + FrameFor(log[c.offset..e], e) == FramesIn(log, acked, e)
    ensures Pull(c, log) == Conn(e, e, "", FramesIn(log, acked, e))
  {
    assert |log[c.offset..e]| == e - c.offset;
    PullsTo(c, log, e, log[c.offset..e]);
  }

  lemma PullsTo(c: Conn, log: Bytes, e: nat, raw: Bytes)
    requires LineEnd(log, c.pos) == Some(e) && c.partial + log[c.pos..e] == raw
    ensures Pull(c, log) == Conn(c.offset + |raw|, e, "", c.wire + FrameFor(raw, c.offset + |raw|))
  {
  }

  lemma StartsLine(log: Bytes, acked: nat, e: nat, c: Conn)
    requires LineBoundary(log, acked, e) && c == Conn(e, e, "", FramesIn(log, acked, e))
    ensures ConnSound(log, acked, c)
  {
    assert log[e..e] == "";
  }

  lemma RestIsPartial(log: Bytes, a: nat, b: nat)
    requires a <= b <= |log| && LF !in log[a..b] && LineEnd(log, b).None?
    ensures log[a..b] + log[b..] == log[a..|log|]
    ensures LF !in log[a..|log|]
  {
    NoLineEnd(log, b);
    assert log[a..b] + log[b..] == log[a..|log|];
  }

  lemma LineIsSound(log: Bytes, acked: nat, c: Conn, e: nat)
    requires acked <= |log| && ConnSound(log, acked, c)
    requires LineEnd(log, c.pos) == Some(e)
    ensures c.partial + log[c.pos..e] == log[c.offset..e]
    ensures c.wire + FrameFor(log[c.offset..e], e) == FramesIn(log, acked, e)
  {
    LineEndAcross(log, c.offset, c.pos);
    LineEndBounds(log, c.offset, c.pos, e);
    FramesSplit(log, acked, c.offset, e);
    OneLineFrames(log, c.offset, e);
  }

  lemma OneLineFrames(log: Bytes, a: nat, e: nat)
    requires a <= |log| && LineEnd(log, a) == Some(e)
    ensures a <= e <= |log| && FramesIn(log, a, e) == FrameFor(log[a..e], e)
  {
    assert FramesIn(log, e, e) == [];
    assert FrameFor(log[a..e], e) + [] == FrameFor(log[a..e], e);
  }

  lemma LineEndBounds(log: Bytes, a: nat, b: nat, e: nat)
    requires a <= b <= |log| && LineEnd(log, b) == Some(e)
    ensures b <= e <= |log| && log[a..b] + log[b..e] == log[a..e]
  {}

  lemma {:induction false} NoLineEnd(log: Bytes, i: nat)
    requires i <= |log| && LineEnd(log, i).None?
    ensures LF !in log[i..]
    decreases |log| - i
  {
    if i < |log| {
      NoLineEnd(log, i + 1);
      assert log[i..] == [log[i]] + log[i + 1..];
    }
  }

  lemma {:induction false} LineEndAcross(log: Bytes, a: nat, b: nat)
    requires a <= b <= |log| && LF !in log[a..b]
    ensures LineEnd(log, a) == LineEnd(log, b)
    decreases b - a
  {
    if a < b {
      assert log[a] == log[a..b][0] != LF;
      assert log[a + 1..b] == log[a..b][1..];
      LineEndAcross(log, a + 1, b);
    }
  }

  lemma DeliverIsSound(w: World)
    requires Sound(w) && Enabled(w, Deliver)
    ensures Sound(Next(w, Deliver))
  {
    var c := w.conn.value;
    var acked := Acked(w.client);
    FirstFrame(w.log, acked, c.offset, c.wire[0]);
    FramesSplit(w.log, w.client.start, acked, c.wire[0].id);
  }

  lemma StepIsSound(w: World, step: Step)
    requires Sound(w) && Enabled(w, step)
    ensures Sound(Next(w, step))
  {
    match step
    case Append(bytes) => AppendIsSound(w, bytes);
    case PullLine => PullIsSound(w.log, Acked(w.client), w.conn.value);
    case Deliver => DeliverIsSound(w);
    case Disconnect =>
    case Connect =>
  }

  lemma {:induction false} ScheduleIsSound(w: World, steps: seq<Step>)
    requires Sound(w) && Schedule(w, steps)
    ensures Sound(After(w, steps))
    decreases |steps|
  {
    if steps != [] {
      StepIsSound(w, steps[0]);
      ScheduleIsSound(Next(w, steps[0]), steps[1..]);
    }
  }

  // Exactly once, in order: over any interleaving of appends, reads, deliveries, losses
  // and reconnects, what the client has is a beginning of the frames from where its
  // stream began, and what is missing are exactly the frames after its last id.
  lemma ExactlyOnce(steps: seq<Step>)
    requires Schedule(NEW, steps)
    ensures var w := After(NEW, steps);
            && w.client.start <= |w.log| && Acked(w.client) <= |w.log|
            && FramesOf(w.log, w.client.start) == w.client.received + FramesOf(w.log, Acked(w.client))
  {
    ScheduleIsSound(NEW, steps);
    var w := After(NEW, steps);
    FramesSplit(w.log, w.client.start, Acked(w.client), |w.log|);
  }

  // ... and when the server has read to the end and the wire is empty, nothing is missing.
  lemma NothingMissing(steps: seq<Step>)
    requires Schedule(NEW, steps)
    ensures var w := After(NEW, steps);
            w.conn.Some? && w.conn.value.pos == |w.log| && w.conn.value.wire == []
            ==> w.client.start <= |w.log| && w.client.received == FramesOf(w.log, w.client.start)
  {
    ScheduleIsSound(NEW, steps);
    ExactlyOnce(steps);
    var w := After(NEW, steps);
    if w.conn.Some? && w.conn.value.pos == |w.log| && w.conn.value.wire == [] {
      var c, acked := w.conn.value, Acked(w.client);
      FramesSplit(w.log, acked, c.offset, |w.log|);
      assert c.partial == w.log[c.offset..];
      LineEndAcross(w.log, c.offset, |w.log|);
      assert FramesOf(w.log, c.offset) == [];
    }
  }

  // A stream that begins between lines carries whole lines of the log.
  lemma WholeLines(log: Bytes, start: nat)
    requires LineBoundary(log, 0, start)
    ensures FramesOf(log, 0) == FramesIn(log, 0, start) + FramesOf(log, start)
  {
    FramesSplit(log, 0, start, |log|);
  }

  // ... and it does so exactly then, unless what is left of the line it begins in holds
  // nothing to send.
  lemma WholeLinesExactly(log: Bytes, start: nat)
    requires start <= |log|
    ensures EndsWith(FramesOf(log, 0), FramesOf(log, start)) <==> LineBoundary(log, 0, start) || BlankRest(log, start)
  {
    if LineBoundary(log, 0, start) {
      WholeLines(log, start);
      TailEnds(FramesIn(log, 0, start), FramesOf(log, start));
    } else {
      var a := LineStart(log, 0, start);
      FramesSplit(log, 0, a, |log|);
      LineEndAcross(log, a, start);
      if LineEnd(log, start).Some? {
        var e := LineEnd(log, start).value;
        if BlankRest(log, start) {
          SkipBlank(log, start, |log|, e);
          FramesSplit(log, 0, e, |log|);
          TailEnds(FramesIn(log, 0, e), FramesOf(log, e));
        } else {
          TrimmedGrows(log, a, start, e);
          FirstDiffers(FramesIn(log, 0, a), Frame(e, TrimEol(log[a..e])), Frame(e, TrimEol(log[start..e])), FramesOf(log, e));
        }
      }
    }
  }

  // A line as a writer leaves it: its text, some carriage returns, a line feed.
  datatype Written = Written(text: Bytes, crs: nat)

  predicate IsLine(w: Written) {
    LF !in w.text && (w.text != "" ==> w.text[|w.text| - 1] != CR)
  }

  predicate AreLines(lines: seq<Written>) {
    lines == [] || (IsLine(lines[0]) && AreLines(lines[1..]))
  }

  function Crs(n: nat): Bytes {
    seq(n, i => CR)
  }

  function LineText(w: Written): Bytes {
    w.text + Crs(w.crs) + [LF]
  }

  function LogOf(lines: seq<Written>): Bytes {
    if lines == [] then "" else LineText(lines[0]) + LogOf(lines[1..])
  }

  // A frame for each line that has text: the text, and the offset just past the line.
  function Expected(lines: seq<Written>, at: nat): seq<Frame> {
    if lines == [] then []
    else
      var end := at + |LineText(lines[0])|;
      ExpectedOf(lines[0], end) + Expected(lines[1..], end)
  }

  function ExpectedOf(w: Written, end: nat): seq<Frame> {
    if w.text == "" then [] else [Frame(end, w.text)]
  }

  lemma {:induction false} TrimmedCrs(raw: Bytes, text: nat, n: nat)
    requires text <= n <= |raw| && (forall i :: text <= i < n ==> raw[i] == CR || raw[i] == LF)
    requires text > 0 ==> raw[text - 1] != CR && raw[text - 1] != LF
    ensures TrimmedLength(raw, n) == text
  {
    if n > text {
      TrimmedCrs(raw, text, n - 1);
    }
  }

  lemma LineIsTrimmed(w: Written)
    requires IsLine(w)
    ensures TrimEol(LineText(w)) == w.text
  {
    var raw, n := LineText(w), |w.text|;
    assert raw[..n] == w.text;
    assert n > 0 ==> raw[n - 1] == w.text[n - 1] && w.text[n - 1] in w.text;
    TrimmedCrs(raw, n, |raw|);
  }

  lemma {:induction false} FirstLf(log: Bytes, a: nat, b: nat)
    requires a <= b < |log| && log[b] == LF && LF !in log[a..b]
    ensures LineEnd(log, a) == Some(b + 1)
    decreases b - a
  {
    if a < b {
      assert log[a] == log[a..b][0];
      assert log[a + 1..b] == log[a..b][1..];
      FirstLf(log, a + 1, b);
    }
  }

  // From any offset on, the frames of a log are those of its lines, whichever lines they
  // are; an unfinished line at the end has none yet.
  lemma {:induction false} FramesOfLines(log: Bytes, at: nat, lines: seq<Written>, open: Bytes)
    requires at <= |log| && log[at..] == LogOf(lines) + open
    requires AreLines(lines) && LF !in open
    ensures FramesOf(log, at) == Expected(lines, at)
    decreases |lines|
  {
    if lines == [] {
      NothingYet(log, at, open);
    } else {
      var end := FirstLineFrames(log, at, lines[0], LogOf(lines[1..]), open);
      FramesOfLines(log, end, lines[1..], open);
      ExpectedStep(lines, at, end);
    }
  }

  lemma ExpectedStep(lines: seq<Written>, at: nat, end: nat)
    requires lines != [] && end == at + |LineText(lines[0])|
    ensures Expected(lines, at) == ExpectedOf(lines[0], end) + Expected(lines[1..], end)
  {
  }

  lemma NothingYet(log: Bytes, at: nat, open: Bytes)
    requires at <= |log| && log[at..] == "" + open && LF !in open
    ensures FramesOf(log, at) == []
  {
    assert log[at..] == open == log[at..|log|];
    LineEndAcross(log, at, |log|);
  }

  // The first of them, and where it ends.
  lemma FirstLineFrames(log: Bytes, at: nat, w: Written, body: Bytes, open: Bytes) returns (end: nat)
    requires at <= |log| && log[at..] == LineText(w) + body + open && IsLine(w)
    ensures end == at + |LineText(w)| <= |log| && log[end..] == body + open
    ensures FramesOf(log, at) == ExpectedOf(w, end) + FramesOf(log, end)
  {
    ConcatAssociates(LineText(w), body, open);
    end := at + |LineText(w)|;
    FirstOf(log, at, LineText(w), body + open);
    LineAt(log, at, w);
    OwnFrame(log, at, end, w);
  }

  lemma OwnFrame(log: Bytes, at: nat, end: nat, w: Written)
    requires at <= end <= |log| && LineEnd(log, at) == Some(end) && log[at..end] == LineText(w) && IsLine(w)
    ensures FramesOf(log, at) == ExpectedOf(w, end) + FramesOf(log, end)
  {
    LineIsTrimmed(w);
  }

  lemma FirstOf(log: Bytes, at: nat, a: Bytes, b: Bytes)
    requires at <= |log| && log[at..] == a + b
    ensures at + |a| <= |log| && log[at..at + |a|] == a && log[at + |a|..] == b
  {
    assert |log[at..]| == |a| + |b|;
    assert log[at..at + |a|] == log[at..][..|a|] && log[at + |a|..] == log[at..][|a|..];
  }

  lemma LineAt(log: Bytes, at: nat, w: Written)
    requires IsLine(w) && at + |LineText(w)| <= |log| && log[at..at + |LineText(w)|] == LineText(w)
    ensures LineEnd(log, at) == Some(at + |LineText(w)|)
  {
    var line, end := LineText(w), at + |LineText(w)|;
    var body := w.text + Crs(w.crs);
    assert LF !in body;
    assert log[end - 1] == line[|line| - 1] == LF;
    assert log[at..end - 1] == line[..|line| - 1] == body;
    FirstLf(log, at, end - 1);
  }

  predicate EndsWith(all: seq<Frame>, tail: seq<Frame>) {
    |tail| <= |all| && all[|all| - |tail|..] == tail
  }

  predicate BlankRest(log: Bytes, start: nat)
    requires start <= |log|
  {
    var end := LineEnd(log, start);
    end.None? || TrimEol(log[start..end.value]) == ""
  }

  // Where the line that holds offset `i` begins, or `a` if that is later.
  function LineStart(log: Bytes, a: nat, i: nat): (s: nat)
    requires a <= i <= |log|
    ensures LineBoundary(log, a, s) && s <= i && LF !in log[s..i]
  {
    if i == a || log[i - 1] == LF then i
    else
      var s := LineStart(log, a, i - 1);
      assert log[s..i] == log[s..i - 1] + [log[i - 1]];
      s
  }

  lemma TailEnds(front: seq<Frame>, tail: seq<Frame>)
    ensures EndsWith(front + tail, tail)
  {
  }

  lemma FirstDiffers(front: seq<Frame>, f: Frame, g: Frame, tail: seq<Frame>)
    requires f != g
    ensures !EndsWith(front + ([f] + tail), [g] + tail)
  {
    var all := front + ([f] + tail);
    assert all[|front|..][0] == f;
  }

  // A line cut off at its front is a shorter text, if any is left.
  lemma TrimmedGrows(log: Bytes, a: nat, b: nat, e: nat)
    requires a < b <= e <= |log| && TrimEol(log[b..e]) != ""
    ensures |TrimEol(log[a..e])| > |TrimEol(log[b..e])| && TrimEol(log[a..e]) != ""
  {
    TrimmedShift(log[a..e], log[b..e], |log[b..e]|, b - a);
  }

  lemma {:induction false} TrimmedShift(long: Bytes, short: Bytes, n: nat, cut: nat)
    requires n <= |short| && cut + |short| == |long| && long[cut..] == short
    requires TrimmedLength(short, n) > 0
    ensures TrimmedLength(long, n + cut) == cut + TrimmedLength(short, n)
  {
    assert n > 0 ==> long[n + cut - 1] == long[cut..][n - 1];
    if short[n - 1] == LF || short[n - 1] == CR {
      TrimmedShift(long, short, n - 1, cut);
    }
  }

  // Nothing is sent for the stretch from `a` to `b`: the lines that end in it are blank,
  // and so is the one it ends in, if it ends inside one.
  predicate Silent(log: Bytes, a: nat, b: nat)
    requires a <= b <= |log|
  {
    var s, end := LineStart(log, a, b), LineEnd(log, b);
    && FramesIn(log, a, s) == []
    && (s == b || end.None? || TrimEol(log[s..end.value]) == "")
  }

  lemma SilentExactly(log: Bytes, a: nat, b: nat)
    requires a <= b <= |log|
    ensures FramesOf(log, a) == FramesOf(log, b) <==> Silent(log, a, b)
  {
    var s, end := LineStart(log, a, b), LineEnd(log, b);
    FramesSplit(log, a, s, |log|);
    LineEndAcross(log, s, b);
    if s < b && end.Some? {
      var e, tail := end.value, FramesOf(log, end.value);
      FirstLine(log, s, e);
      FirstLine(log, b, e);
      if TrimEol(log[b..e]) != "" {
        TrimmedGrows(log, s, b, e);
        OtherFrame(FramesIn(log, a, s), Frame(e, TrimEol(log[s..e])), Frame(e, TrimEol(log[b..e])), tail);
      } else {
        LongerBy(FramesIn(log, a, s), FrameFor(log[s..e], e), tail);
        BlankTail(log, s, b, e);
      }
    } else {
      LongerBy(FramesIn(log, a, s), [], FramesOf(log, b));
    }
  }

  lemma FirstLine(log: Bytes, a: nat, e: nat)
    requires a <= |log| && LineEnd(log, a) == Some(e)
    ensures FramesOf(log, a) == FrameFor(log[a..e], e) + FramesOf(log, e)
  {}

  lemma OtherFrame(front: seq<Frame>, f: Frame, g: Frame, tail: seq<Frame>)
    requires f != g
    ensures front + ([f] + tail) != [g] + tail
  {
    var all := front + ([f] + tail);
    if front == [] {
      assert all[0] == f;
    } else {
      assert |all| > |[g] + tail|;
    }
  }

  lemma LongerBy(front: seq<Frame>, own: seq<Frame>, tail: seq<Frame>)
    ensures front + (own + tail) == tail <==> front == [] && own == []
  {
    if front == [] && own == [] {
      assert front + (own + tail) == tail;
    } else {
      assert |front + (own + tail)| > |tail|;
    }
  }

  // A blank line is blank to its end.
  lemma BlankTail(log: Bytes, a: nat, b: nat, e: nat)
    requires a <= b <= e <= |log| && TrimEol(log[b..e]) == ""
    ensures FrameFor(log[b..e], e) == []
  {}

  // From its first connection on the client loses nothing, exactly when nothing was to be
  // sent between that and the connection its first frame came over: until it has an id to
  // resume from, a reconnect starts at the end of the log again.
  lemma NothingLostExactly(steps: seq<Step>)
    requires Schedule(NEW, steps) && After(NEW, steps).client.first.Some?
    ensures var w := After(NEW, steps);
            var first := w.client.first.value;
            && first <= w.client.start <= |w.log| && Acked(w.client) <= |w.log|
            && (FramesOf(w.log, first) == w.client.received + FramesOf(w.log, Acked(w.client))
                <==> Silent(w.log, first, w.client.start))
  {
    ScheduleIsSound(NEW, steps);
    ExactlyOnce(steps);
    var w := After(NEW, steps);
    SilentExactly(w.log, w.client.first.value, w.client.start);
  }

  // A first connection made while a line is half written begins inside it: its first
  // frame is only the rest of that line.
  lemma TornFirstLine()
    ensures exists steps :: Schedule(NEW, steps) && Torn(After(NEW, steps))
  {
    var w2 := World("ab", Some(Conn(2, 2, "", [])), Client([], None, 2, Some(2)));
    var w4 := World(TORN, Some(Conn(4, 4, "", [Frame(4, "c")])), Client([], None, 2, Some(2)));
    var w5 := World(TORN, Some(Conn(4, 4, "", [])), Client([Frame(4, "c")], Some(4), 2, Some(2)));
    TornLog();
    assert Next(Next(NEW, Append("ab")), Connect) == w2;
    assert Next(w2, Append(['c', LF])).log == TORN;
    assert "" + TORN[2..4] == TORN[2..4];
    assert [] + [Frame(4, "c")] == [Frame(4, "c")] && [Frame(4, "c")][1..] == [];
    assert Next(Next(w2, Append(['c', LF])), PullLine) == w4;
    assert Next(w4, Deliver) == w5;
    Last(w4, Deliver);
    Prepend(Next(w2, Append(['c', LF])), PullLine, [Deliver]);
    Prepend(w2, Append(['c', LF]), [PullLine, Deliver]);
    Prepend(Next(NEW, Append("ab")), Connect, [Append(['c', LF]), PullLine, Deliver]);
    Prepend(NEW, Append("ab"), [Connect, Append(['c', LF]), PullLine, Deliver]);
    assert Torn(w5);
  }

  const TORN := ['a', 'b', 'c', LF]

  // The client got a frame that is no line of the log.
  predicate Torn(w: World) {
    w.client.received == [Frame(4, "c")] && FramesOf(w.log, 0) == [Frame(4, "abc")]
  }

  lemma Last(w: World, step: Step)
    requires Enabled(w, step)
    ensures Schedule(w, [step]) && After(w, [step]) == Next(w, step)
  {
    assert [step][1..] == [];
    assert After(w, [step]) == After(Next(w, step), []);
  }

  lemma Prepend(w: World, step: Step, rest: seq<Step>)
    requires Enabled(w, step) && Schedule(Next(w, step), rest)
    ensures Schedule(w, [step] + rest) && After(w, [step] + rest) == After(Next(w, step), rest)
  {
    assert ([step] + rest)[1..] == rest;
  }

  lemma TornLog()
    ensures LineEnd(TORN, 2) == Some(4)
    ensures FrameFor(TORN[2..4], 4) == [Frame(4, "c")]
    ensures FramesOf(TORN, 0) == [Frame(4, "abc")]
  {
    assert LineEnd(TORN, 2) == LineEnd(TORN, 3) == Some(4);
    assert LineEnd(TORN, 0) == LineEnd(TORN, 1) == LineEnd(TORN, 2);
    assert TrimmedLength(TORN[2..4], 2) == TrimmedLength(TORN[2..4], 1) == 1;
    assert TrimmedLength(TORN[0..4], 4) == TrimmedLength(TORN[0..4], 3) == 3;
    assert TORN[2..4][..1] == "c" && TORN[0..4][..3] == "abc";
    assert FramesIn(TORN, 0, 4) == FrameFor(TORN[0..4], 4) + FramesIn(TORN, 4, 4);
  }

  // ---- the handler ----

  const IDLE_PING_EVERY := 20

  // Reading on until no newline is left.
  function PullAll(c: Conn, log: Bytes): Conn
    requires c.pos <= |log|
    decreases |log| - c.pos
  {
    if LineEnd(log, c.pos).None? then Pull(c, log) else PullAll(Pull(c, log), log)
  }

  lemma {:induction false} PullAllExtends(c: Conn, log: Bytes)
    requires c.pos <= |log|
    ensures c.wire <= PullAll(c, log).wire
    decreases |log| - c.pos
  {
    if LineEnd(log, c.pos).Some? {
      PullAllExtends(Pull(c, log), log);
    }
  }

  // One turn of reading on.
  lemma TurnOf(c: Conn, log: Bytes)
    requires c.pos <= |log|
    ensures c.wire <= Pull(c, log).wire <= PullAll(c, log).wire
    ensures LineEnd(log, c.pos).None? ==> PullAll(c, log) == Pull(c, log)
    ensures LineEnd(log, c.pos).Some? ==> PullAll(c, log) == PullAll(Pull(c, log), log)
  {
    PullAllExtends(c, log);
    if LineEnd(log, c.pos).Some? {
      PullAllExtends(Pull(c, log), log);
    }
  }

  // A tick is nothing but reading steps of the system.
  lemma {:induction false} TickIsPulls(w: World) returns (steps: seq<Step>)
    requires w.conn.Some? && w.conn.value.pos <= |w.log|
    ensures Schedule(w, steps) && After(w, steps) == w.(conn := Some(PullAll(w.conn.value, w.log)))
    decreases |w.log| - w.conn.value.pos
  {
    var w' := Next(w, PullLine);
    if LineEnd(w.log, w.conn.value.pos).None? {
      steps := [PullLine];
      assert steps[1..] == [];
      assert After(w', []) == w' && After(w, steps) == After(w', steps[1..]);
    } else {
      var rest := TickIsPulls(w');
      steps := [PullLine] + rest;
      assert steps[1..] == rest;
    }
  }

  class EventStream {
    var offset: nat
    var pos: nat              // of the buffered reader
    var partial: Bytes
    var idleTicks: nat
    var written: seq<Frame>
    var pings: nat

    function View(): Conn
      reads this
    {
      Conn(offset, pos, partial, written)
    }

    constructor (size: nat, header: Option<int>)
      ensures View() == Conn(StartOffset(size, header), StartOffset(size, header), "", [])
      ensures idleTicks == 0 && pings == 0
    {
      var at := size;
      if header.Some? {
        var n := header.value;
        if 0 <= n <= at {
          at := n;
        }
      }
      offset, pos, partial, written := at, at, "", [];
      idleTicks, pings := 0, 0;
    }

    // The bytes up to and past the next newline, or, at the end of the file, the rest.
    method ReadString(log: Bytes) returns (chunk: Bytes, eof: bool)
      requires pos <= |log|
      modifies this`pos
      ensures var end := LineEnd(log, old(pos));
              && eof == end.None?
              && pos == (if eof then |log| else end.value)
              && chunk == log[old(pos)..pos]
    {
      var i := pos;
      while i < |log| && log[i] != LF
        invariant pos <= i <= |log|
        invariant LineEnd(log, i) == LineEnd(log, pos)
      {
        i := i + 1;
      }
      eof := i == |log|;
      chunk := log[pos..if eof then i else i + 1];
      pos := if eof then i else i + 1;
    }

    // One tick.  `writable` is how many more writes the connection takes.  The stream is
    // still open afterwards exactly when every frame, or the ping that was due, went out.
    method Tick(log: Bytes, writable: nat) returns (open: bool)
      requires pos <= |log|
      modifies this
      ensures var all := PullAll(old(View()), log);
              var sent := |all.wire| - |old(written)|;
              var ping := sent == 0 && old(idleTicks) + 1 >= IDLE_PING_EVERY;
              && open == (sent <= writable && (ping ==> 1 <= writable))
              && (sent <= writable ==> View() == all)
              && (sent > writable ==> written == all.wire[..|old(written)| + writable])
              && pings == old(pings) + (if ping && open then 1 else 0)
              && (open ==> idleTicks == if sent > 0 || ping then 0 else old(idleTicks) + 1)
    {
      var before := |written|;
      open := ReadLines(log, writable);
      if !open {
        return;
      }
      var wrote := |written| > before;
      if wrote {
        idleTicks := 0;
        return;
      }
      idleTicks := idleTicks + 1;
      if idleTicks >= IDLE_PING_EVERY {
        idleTicks := 0;
        if writable == 0 {
          return false;
        }
        pings := pings + 1;
      }
    }

    // The reading loop of a tick.
    method ReadLines(log: Bytes, writable: nat) returns (open: bool)
      requires pos <= |log|
      modifies this`offset, this`pos, this`partial, this`written
      ensures var all := PullAll(old(View()), log);
              && old(written) <= all.wire
              && open == (|all.wire| <= |old(written)| + writable)
              && (if open then View() == all else written == all.wire[..|old(written)| + writable])
    {
      var limit := |written| + writable;
      TurnOf(View(), log);
      ghost var all := PullAll(View(), log);
      while true
        invariant pos <= |log|
        invariant old(written) <= written && |written| <= limit
        invariant all == PullAll(View(), log)
        decreases |log| - pos
      {
        TurnOf(View(), log);
        var eof;
        eof, open := ReadLine(log, limit);
        if eof || !open {
          return;
        }
      }
    }

    // One turn of that loop: a line is read and, unless blank, written if the
    // connection still takes it.
    method ReadLine(log: Bytes, limit: nat) returns (eof: bool, open: bool)
      requires pos <= |log| && |written| <= limit
      modifies this`offset, this`pos, this`partial, this`written
      ensures var next := Pull(old(View()), log);
              && eof == LineEnd(log, old(pos)).None?
              && open == (|next.wire| <= limit)
              && (if open then View() == next else written == old(written) && |written| == limit)
    {
      open := true;
      var chunk;
      chunk, eof := ReadString(log);
      partial := partial + chunk;
      if eof {
        return;
      }
      var raw := partial;
      offset := offset + |raw|;
      partial := "";
      var line := TrimEol(raw);
      if line == "" {
        assert written + [] == written;
        return;
      }
      if |written| == limit {
        open := false;
        return;
      }
      written := written + [Frame(offset, line)];
    }
  }
}
