// The telnet input filter: strips commands and subnegotiations from the byte stream
// and answers option requests ("TELNET COMMAND STRUCTURE" in RFC 854, and RFC 855).
module Telnet {
  import opened Basics

  type Byte = b: int | 0 <= b < 256

  const IAC: Byte := 0xff
  const SE: Byte := 0xf0
  const SB: Byte := 0xfa
  const WILL: Byte := 0xfb
  const WONT: Byte := 0xfc
  const DO: Byte := 0xfd
  const DONT: Byte := 0xfe

  const OPT_ECHO: Byte := 0x01
  const OPT_SGA: Byte := 0x03
  const OPT_TTYPE: Byte := 0x18
  const OPT_NAWS: Byte := 0x1f
  const OPT_TSPEED: Byte := 0x20
  const OPT_XDISPLOC: Byte := 0x23
  const OPT_NEW_ENVIRON: Byte := 0x27

  const LF: Byte := 10

  const MAX_SUBNEG_LEN := 256
  const MAX_NEGOTIATIONS := 512

  datatype Failure = Eof | OversizedSubneg | NegotiationFlood

  predicate IsOptionCommand(c: Byte) {
    c == WILL || c == WONT || c == DO || c == DONT
  }

  // What one option request is answered with.
  function Reply(cmd: Byte, opt: Byte): seq<seq<Byte>> {
    if cmd == DO then
      if opt == OPT_ECHO || opt == OPT_SGA then [] else [[IAC, WONT, opt]]
    else if cmd == WILL then
      if opt in {OPT_NAWS, OPT_TTYPE, OPT_TSPEED, OPT_XDISPLOC, OPT_NEW_ENVIRON} then [] else [[IAC, DONT, opt]]
    else []
  }

  // The server only ever refuses, once and by name: requests to do anything but echo and
  // suppress go-ahead, and offers of anything but the five a client describes itself with.
  // What a client may answer to a refusal is not answered again.
  lemma RepliesRefuse(cmd: Byte, opt: Byte)
    ensures |Reply(cmd, opt)| == 1 <==>
      (cmd == DO && opt !in {1, 3}) || (cmd == WILL && opt !in {24, 31, 32, 35, 39})
    ensures Reply(cmd, opt) == [] || Reply(cmd, opt) == [[255, if cmd == DO then 252 else 254, opt]]
    ensures Reply(WONT, opt) == [] && Reply(DONT, opt) == []
  {
  }

  // ---- the stream, item by item ----

  datatype Item =
    | Datum(b: Byte, rest: seq<Byte>)
    | Negotiation(cmd: Byte, opt: Byte, rest: seq<Byte>)
    | Skipped(rest: seq<Byte>)
    | Exhausted                  // the stream ended, at or inside a command
    | Cut                        // the stream ended inside a subnegotiation
    | TooLong(rest: seq<Byte>)   // a subnegotiation past the length limit

  function Next(src: seq<Byte>): Item {
    if src == [] then Exhausted
    else if src[0] != IAC then Datum(src[0], src[1..])
    else if |src| == 1 then Exhausted
    else if src[1] == IAC then Datum(IAC, src[2..])
    else if IsOptionCommand(src[1]) then
      if |src| == 2 then Exhausted else Negotiation(src[1], src[2], src[3..])
    else if src[1] == SB then Subnegotiation(src[2..], 0)
    else Skipped(src[2..])
  }

  function Subnegotiation(src: seq<Byte>, len: nat): Item
    decreases |src|
  {
    if len > MAX_SUBNEG_LEN then TooLong(src)
    else if src == [] then Cut
    else if src[0] != IAC then Subnegotiation(src[1..], len + 1)
    else if |src| == 1 then Cut
    else if src[1] == SE then Skipped(src[2..])
    else Subnegotiation(src[2..], len + 1)
  }

  lemma {:induction false} SubnegotiationShrinks(src: seq<Byte>, len: nat)
    ensures var item := Subnegotiation(src, len);
            && (item.Skipped? || item.Cut? || item.TooLong?)
            && (item.Skipped? ==> |item.rest| < |src|)
            && (item.TooLong? ==> |item.rest| <= |src|)
    decreases |src|
  {
    if len <= MAX_SUBNEG_LEN && src != [] {
      if src[0] != IAC {
        SubnegotiationShrinks(src[1..], len + 1);
      } else if |src| > 1 && src[1] != SE {
        SubnegotiationShrinks(src[2..], len + 1);
      }
    }
  }

  lemma NextShrinks(src: seq<Byte>)
    ensures var item := Next(src);
            item.Exhausted? || item.Cut? || |item.rest| < |src|
  {
    if |src| > 1 && src[0] == IAC && src[1] == SB {
      SubnegotiationShrinks(src[2..], 0);
    }
  }

  // ---- one read ----

  datatype ReadResult = ReadResult(data: seq<Byte>, rest: seq<Byte>, replies: seq<seq<Byte>>, err: Option<Failure>)

  // A read with `room` bytes to fill, `some` if it already holds data, after `negs`
  // option requests.
  function ReadFrom(src: seq<Byte>, room: nat, some: bool, negs: nat): ReadResult
    decreases |src|
  {
    NextShrinks(src);
    if room == 0 then ReadResult([], src, [], None)
    else
      match Next(src)
      case Datum(b, rest) =>
        if b == LF then ReadResult([b], rest, [], None)
        else
          var r := ReadFrom(rest, room - 1, true, negs);
          r.(data := [b] + r.data)
      case Negotiation(cmd, opt, rest) =>
        if negs + 1 > MAX_NEGOTIATIONS then ReadResult([], rest, Reply(cmd, opt), Some(NegotiationFlood))
        else
          var r := ReadFrom(rest, room, some, negs + 1);
          r.(replies := Reply(cmd, opt) + r.replies)
      case Skipped(rest) => ReadFrom(rest, room, some, negs)
      case Exhausted => ReadResult([], [], [], if some then None else Some(Eof))
      case Cut => ReadResult([], [], [], Some(Eof))
      case TooLong(rest) => ReadResult([], rest, [], Some(OversizedSubneg))
  }

  // ---- the whole stream at once ----

  datatype Stripped = Stripped(data: seq<Byte>, replies: seq<seq<Byte>>, end: Failure)

  function Strip(src: seq<Byte>): Stripped
    decreases |src|
  {
    NextShrinks(src);
    match Next(src)
    case Datum(b, rest) => var s := Strip(rest); s.(data := [b] + s.data)
    case Negotiation(cmd, opt, rest) => var s := Strip(rest); s.(replies := Reply(cmd, opt) + s.replies)
    case Skipped(rest) => Strip(rest)
    case Exhausted => Stripped([], [], Eof)
    case Cut => Stripped([], [], Eof)
    case TooLong(_) => Stripped([], [], OversizedSubneg)
  }

  // No more requests than the limit between one line feed and the next, `negs` of them
  // already seen.  A read ends at a line feed, and each read counts its own.
  predicate Calm(src: seq<Byte>, negs: nat)
    decreases |src|
  {
    NextShrinks(src);
    match Next(src)
    case Datum(b, rest) => Calm(rest, if b == LF then 0 else negs)
    case Negotiation(_, _, rest) => negs + 1 <= MAX_NEGOTIATIONS && Calm(rest, negs + 1)
    case Skipped(rest) => Calm(rest, negs)
    case Exhausted => true
    case Cut => true
    case TooLong(_) => true
  }

  // `r` is a beginning of what stripping the whole stream gives, and leaves the rest.
  ghost predicate Begins(src: seq<Byte>, room: nat, r: ReadResult) {
    var whole, behind := Strip(src), Strip(r.rest);
    && (r.err.None? ==> whole == Stripped(r.data + behind.data, r.replies + behind.replies, behind.end))
    && (r.err.Some? ==> whole == Stripped(r.data, r.replies, r.err.value))
    && |r.data| <= room
  }

  lemma BeginsDatum(src: seq<Byte>, b: Byte, rest: seq<Byte>, room: nat, r: ReadResult)
    requires room > 0 && Next(src) == Datum(b, rest)
    requires Begins(rest, room - 1, r)
    ensures Begins(src, room, r.(data := [b] + r.data))
  {
    ConcatAssociates([b], r.data, Strip(r.rest).data);
  }

  lemma BeginsReply(src: seq<Byte>, cmd: Byte, opt: Byte, rest: seq<Byte>, room: nat, r: ReadResult)
    requires Next(src) == Negotiation(cmd, opt, rest)
    requires Begins(rest, room, r)
    ensures Begins(src, room, r.(replies := Reply(cmd, opt) + r.replies))
  {
    ConcatAssociates(Reply(cmd, opt), r.replies, Strip(r.rest).replies);
  }

  // One read, unless it reports a flood, takes exactly a beginning of what stripping the
  // whole stream gives.
  lemma {:induction false} ReadIsPrefix(src: seq<Byte>, room: nat, some: bool, negs: nat)
    requires ReadFrom(src, room, some, negs).err != Some(NegotiationFlood)
    ensures Begins(src, room, ReadFrom(src, room, some, negs))
    decreases |src|
  {
    NextShrinks(src);
    if room > 0 {
      match Next(src) {
        case Datum(b, rest) =>
          if b == LF {
            assert Strip(src).data == [b] + Strip(rest).data;
          } else {
            ReadIsPrefix(rest, room - 1, true, negs);
            BeginsDatum(src, b, rest, room, ReadFrom(rest, room - 1, true, negs));
          }
        case Negotiation(cmd, opt, rest) =>
          ReadIsPrefix(rest, room, some, negs + 1);
          BeginsReply(src, cmd, opt, rest, room, ReadFrom(rest, room, some, negs + 1));
        case Skipped(rest) => ReadIsPrefix(rest, room, some, negs);
        case Exhausted =>
        case Cut =>
        case TooLong(_) =>
      }
    }
  }

  // Every read that returns without error delivers something, moves on, and leaves a calm
  // stream calm; one of a calm stream reports no flood.
  lemma {:induction false} ReadsProgress(src: seq<Byte>, room: nat, some: bool, negs: nat)
    requires room > 0
    ensures var r := ReadFrom(src, room, some, negs);
            && |r.rest| <= |src|
            && (r.err.None? && !some ==> |r.data| > 0 && |r.rest| < |src|)
            && (Calm(src, negs) ==> r.err != Some(NegotiationFlood))
            && (Calm(src, negs) && r.err.None? ==> Calm(r.rest, 0))
    decreases |src|
  {
    NextShrinks(src);
    match Next(src) {
      case Datum(b, rest) =>
        if b != LF && room > 1 {
          ReadsProgress(rest, room - 1, true, negs);
        } else {
          FewerIsCalm(rest, negs, 0);
        }
      case Negotiation(cmd, opt, rest) =>
        if negs + 1 <= MAX_NEGOTIATIONS {
          ReadsProgress(rest, room, some, negs + 1);
        }
      case Skipped(rest) => ReadsProgress(rest, room, some, negs);
      case Exhausted =>
      case Cut =>
      case TooLong(_) =>
    }
  }

  lemma {:induction false} FewerIsCalm(src: seq<Byte>, negs: nat, fewer: nat)
    requires fewer <= negs
    ensures Calm(src, negs) ==> Calm(src, fewer)
    decreases |src|
  {
    NextShrinks(src);
    match Next(src) {
      case Datum(b, rest) => FewerIsCalm(rest, if b == LF then 0 else negs, if b == LF then 0 else fewer);
      case Negotiation(_, _, rest) => FewerIsCalm(rest, negs + 1, fewer + 1);
      case Skipped(rest) => FewerIsCalm(rest, negs, fewer);
      case Exhausted =>
      case Cut =>
      case TooLong(_) =>
    }
  }

  // Reads of the given sizes, one after the other, until one reports an error.
  function ReadAll(src: seq<Byte>, sizes: nat -> nat, k: nat): Stripped
    requires forall i :: sizes(i) > 0
    decreases |src|
  {
    ReadsProgress(src, sizes(k), false, 0);
    var r := ReadFrom(src, sizes(k), false, 0);
    if r.err.Some? then Stripped(r.data, r.replies, r.err.value)
    else
      var s := ReadAll(r.rest, sizes, k + 1);
      Stripped(r.data + s.data, r.replies + s.replies, s.end)
  }

  lemma {:induction false} StripNeverFloods(src: seq<Byte>)
    ensures Strip(src).end != NegotiationFlood
    decreases |src|
  {
    NextShrinks(src);
    match Next(src) {
      case Datum(_, rest) => StripNeverFloods(rest);
      case Negotiation(_, _, rest) => StripNeverFloods(rest);
      case Skipped(rest) => StripNeverFloods(rest);
      case Exhausted =>
      case Cut =>
      case TooLong(_) =>
    }
  }

  // Any stream, well formed or not: however the reads are sized, together they deliver
  // the same data, the same replies and the same end, exactly when no read is a flood.
  lemma {:induction false} SizesDoNotMatter(src: seq<Byte>, sizes: nat -> nat, k: nat)
    requires forall i :: sizes(i) > 0
    ensures ReadAll(src, sizes, k) == Strip(src) <==> ReadAll(src, sizes, k).end != NegotiationFlood
    decreases |src|
  {
    StripNeverFloods(src);
    if ReadAll(src, sizes, k).end != NegotiationFlood {
      ReadsProgress(src, sizes(k), false, 0);
      ReadIsPrefix(src, sizes(k), false, 0);
      var r := ReadFrom(src, sizes(k), false, 0);
      if r.err.None? {
        SizesDoNotMatter(r.rest, sizes, k + 1);
      }
    }
  }

  lemma {:induction false} CalmReadsDoNotFlood(src: seq<Byte>, sizes: nat -> nat, k: nat)
    requires forall i :: sizes(i) > 0
    requires Calm(src, 0)
    ensures ReadAll(src, sizes, k).end != NegotiationFlood
    decreases |src|
  {
    ReadsProgress(src, sizes(k), false, 0);
    var r := ReadFrom(src, sizes(k), false, 0);
    if r.err.None? {
      CalmReadsDoNotFlood(r.rest, sizes, k + 1);
    }
  }

  // A read with room for the whole stream meets every request up to the next line feed.
  lemma {:induction false} BigReadFloods(src: seq<Byte>, room: nat, some: bool, negs: nat)
    requires room > |src| && !Calm(src, negs)
    ensures var r := ReadFrom(src, room, some, negs);
            r.err == Some(NegotiationFlood) || (r.err.None? && !Calm(r.rest, 0) && |r.rest| < |src|)
    decreases |src|
  {
    NextShrinks(src);
    match Next(src) {
      case Datum(b, rest) =>
        if b != LF {
          BigReadFloods(rest, room - 1, true, negs);
        }
      case Negotiation(_, _, rest) =>
        if negs + 1 <= MAX_NEGOTIATIONS {
          BigReadFloods(rest, room, some, negs + 1);
        }
      case Skipped(rest) => BigReadFloods(rest, room, some, negs);
      case _ => assert false;
    }
  }

  lemma {:induction false} BigReadsFlood(src: seq<Byte>, sizes: nat -> nat, k: nat)
    requires forall i :: sizes(i) > |src|
    requires !Calm(src, 0)
    ensures ReadAll(src, sizes, k).end == NegotiationFlood
    decreases |src|
  {
    BigReadFloods(src, sizes(k), false, 0);
    var r := ReadFrom(src, sizes(k), false, 0);
    if r.err.None? {
      BigReadsFlood(r.rest, sizes, k + 1);
    }
  }

  // No sizes whatever can make the reads of a stream anything but its stripping, exactly
  // when the stream is calm.
  lemma CalmExactly(src: seq<Byte>)
    ensures (forall sizes: nat -> nat :: (forall i :: sizes(i) > 0) ==> ReadAll(src, sizes, 0) == Strip(src))
       <==> Calm(src, 0)
  {
    if Calm(src, 0) {
      forall sizes: nat -> nat | forall i :: sizes(i) > 0 ensures ReadAll(src, sizes, 0) == Strip(src) {
        CalmReadsDoNotFlood(src, sizes, 0);
        SizesDoNotMatter(src, sizes, 0);
      }
    } else {
      var sizes: nat -> nat := i => |src| + 1;
      BigReadsFlood(src, sizes, 0);
      StripNeverFloods(src);
      assert ReadAll(src, sizes, 0) != Strip(src);
    }
  }

  // ---- what a well-behaved client sends ----

  datatype SubItem = Raw(x: Byte) | Escaped(y: Byte)

  datatype Element =
    | Data(b: Byte)
    | Request(cmd: Byte, opt: Byte)
    | Command(c: Byte)
    | Subneg(body: seq<SubItem>)

  predicate WellFormed(e: Element) {
    match e
    case Data(_) => true
    case Request(cmd, _) => IsOptionCommand(cmd)
    case Command(c) => c != IAC && c != SB && !IsOptionCommand(c)
    case Subneg(body) => |body| <= MAX_SUBNEG_LEN && forall item :: item in body ==> Inside(item)
  }

  predicate Inside(item: SubItem) {
    match item
    case Raw(x) => x != IAC
    case Escaped(y) => y != SE
  }

  function EncodeBody(body: seq<SubItem>): seq<Byte> {
    if body == [] then [IAC, SE]
    else (match body[0] case Raw(x) => [x] case Escaped(y) => [IAC, y]) + EncodeBody(body[1..])
  }

  function EncodeOne(e: Element): seq<Byte> {
    match e
    case Data(b) => if b == IAC then [IAC, IAC] else [b]
    case Request(cmd, opt) => [IAC, cmd, opt]
    case Command(c) => [IAC, c]
    case Subneg(body) => [IAC, SB] + EncodeBody(body)
  }

  function Encode(es: seq<Element>): seq<Byte> {
    if es == [] then [] else EncodeOne(es[0]) + Encode(es[1..])
  }

  function DataOf(es: seq<Element>): seq<Byte> {
    if es == [] then [] else (if es[0].Data? then [es[0].b] else []) + DataOf(es[1..])
  }

  function RepliesTo(es: seq<Element>): seq<seq<Byte>> {
    if es == [] then []
    else (if es[0].Request? then Reply(es[0].cmd, es[0].opt) else []) + RepliesTo(es[1..])
  }

  // No more requests than the limit between one line feed and the next.
  predicate CalmIn(es: seq<Element>, negs: nat) {
    if es == [] then true
    else if es[0].Request? then negs + 1 <= MAX_NEGOTIATIONS && CalmIn(es[1..], negs + 1)
    else CalmIn(es[1..], if es[0] == Data(LF) then 0 else negs)
  }

  lemma {:induction false} BodyIsSkipped(body: seq<SubItem>, rest: seq<Byte>, len: nat)
    requires len + |body| <= MAX_SUBNEG_LEN
    requires forall item :: item in body ==> Inside(item)
    ensures Subnegotiation(EncodeBody(body) + rest, len) == Skipped(rest)
    decreases |body|
  {
    var s := EncodeBody(body) + rest;
    if body == [] {
      assert s[2..] == rest;
    } else {
      assert Inside(body[0]);
      var tail := EncodeBody(body[1..]) + rest;
      BodyIsSkipped(body[1..], rest, len + 1);
      match body[0]
      case Raw(x) => assert s == [x] + tail && s[1..] == tail;
      case Escaped(y) => assert s == [IAC, y] + tail && s[2..] == tail;
    }
  }

  lemma {:induction false} BodyIsTooLong(body: seq<SubItem>, rest: seq<Byte>, len: nat)
    requires len + |body| > MAX_SUBNEG_LEN
    requires forall item :: item in body ==> Inside(item)
    ensures Subnegotiation(EncodeBody(body) + rest, len).TooLong?
    decreases |body|
  {
    if len <= MAX_SUBNEG_LEN {
      assert Inside(body[0]);
      var tail, s := EncodeBody(body[1..]) + rest, EncodeBody(body) + rest;
      BodyIsTooLong(body[1..], rest, len + 1);
      match body[0]
      case Raw(x) => assert s == [x] + tail && s[1..] == tail;
      case Escaped(y) => assert s == [IAC, y] + tail && s[2..] == tail;
    }
  }

  // A subnegotiation is passed over exactly when its body holds no more than 256 items,
  // and ends the connection otherwise.
  lemma SubnegExactly(body: seq<SubItem>, rest: seq<Byte>)
    requires forall item :: item in body ==> Inside(item)
    ensures var item := Next([IAC, SB] + (EncodeBody(body) + rest));
            if |body| <= 256 then item == Skipped(rest) else item.TooLong?
  {
    var s := [IAC, SB] + (EncodeBody(body) + rest);
    assert s[2..] == EncodeBody(body) + rest;
    if |body| <= 256 {
      BodyIsSkipped(body, rest, 0);
    } else {
      BodyIsTooLong(body, rest, 0);
    }
  }

  lemma FirstData(b: Byte, rest: seq<Byte>)
    ensures Next((if b == IAC then [IAC, IAC] else [b]) + rest) == Datum(b, rest)
  {
    var s := (if b == IAC then [IAC, IAC] else [b]) + rest;
    assert if b == IAC then s[2..] == rest else s[1..] == rest;
  }

  lemma FirstOption(cmd: Byte, opt: Byte, rest: seq<Byte>)
    requires IsOptionCommand(cmd)
    ensures Next([IAC, cmd, opt] + rest) == Negotiation(cmd, opt, rest)
  {
    assert ([IAC, cmd, opt] + rest)[3..] == rest;
  }

  lemma FirstCommand(c: Byte, rest: seq<Byte>)
    requires WellFormed(Command(c))
    ensures Next([IAC, c] + rest) == Skipped(rest)
  {
    assert ([IAC, c] + rest)[2..] == rest;
  }

  lemma FirstElement(e: Element, rest: seq<Byte>)
    requires WellFormed(e)
    ensures Next(EncodeOne(e) + rest) ==
      match e
      case Data(b) => Datum(b, rest)
      case Request(cmd, opt) => Negotiation(cmd, opt, rest)
      case Command(_) => Skipped(rest)
      case Subneg(_) => Skipped(rest)
  {
    match e
    case Data(b) => FirstData(b, rest);
    case Request(cmd, opt) => FirstOption(cmd, opt, rest);
    case Command(c) => FirstCommand(c, rest);
    case Subneg(body) =>
      SubnegExactly(body, rest);
      assert EncodeOne(e) + rest == [IAC, SB] + (EncodeBody(body) + rest);
  }

  lemma {:induction false} StripEncoded(es: seq<Element>)
    requires forall e :: e in es ==> WellFormed(e)
    ensures Strip(Encode(es)) == Stripped(DataOf(es), RepliesTo(es), Eof)
    decreases |es|
  {
    if es != [] {
      StripEncoded(es[1..]);
      FirstElement(es[0], Encode(es[1..]));
      match es[0]
      case Data(b) => assert DataOf(es) == [b] + DataOf(es[1..]);
      case Request(cmd, opt) => assert RepliesTo(es) == Reply(cmd, opt) + RepliesTo(es[1..]);
      case _ => assert DataOf(es) == DataOf(es[1..]) && RepliesTo(es) == RepliesTo(es[1..]);
    }
  }

  lemma {:induction false} CalmEncoded(es: seq<Element>, negs: nat)
    requires forall e :: e in es ==> WellFormed(e)
    ensures Calm(Encode(es), negs) <==> CalmIn(es, negs)
    decreases |es|
  {
    if es != [] {
      FirstElement(es[0], Encode(es[1..]));
      CalmEncoded(es[1..], if es[0].Request? then negs + 1 else if es[0] == Data(LF) then 0 else negs);
    }
  }

  // Stripping is transparent: with commands and subnegotiations inserted anywhere, every
  // sequence of positive read sizes delivers the data and sends the policy's replies,
  // exactly when no line holds more requests than a read may meet.
  lemma ReadsAreTransparent(es: seq<Element>)
    requires forall e :: e in es ==> WellFormed(e)
    ensures (forall sizes: nat -> nat :: (forall i :: sizes(i) > 0) ==>
              ReadAll(Encode(es), sizes, 0) == Stripped(DataOf(es), RepliesTo(es), Eof))
       <==> CalmIn(es, 0)
  {
    StripEncoded(es);
    CalmEncoded(es, 0);
    CalmExactly(Encode(es));
  }

  predicate AllRequests(es: seq<Element>) {
    es == [] || (es[0].Request? && WellFormed(es[0]) && AllRequests(es[1..]))
  }

  // Answers to the first `n` requests.
  function RepliesToFirst(es: seq<Element>, n: nat): seq<seq<Byte>> {
    if n == 0 || es == [] || !es[0].Request? then []
    else Reply(es[0].cmd, es[0].opt) + RepliesToFirst(es[1..], n - 1)
  }

  // Nothing but requests: the read fails exactly when they pass the limit, and every one
  // it met, the last included, was answered.
  lemma FloodExactly(es: seq<Element>, room: nat, negs: nat)
    requires room > 0 && negs <= MAX_NEGOTIATIONS
    requires AllRequests(es)
    ensures var r, floods := ReadFrom(Encode(es), room, false, negs), negs + |es| > MAX_NEGOTIATIONS;
            && r.err == Some(if floods then NegotiationFlood else Eof)
            && r.data == []
            && r.replies == RepliesToFirst(es, if floods then MAX_NEGOTIATIONS + 1 - negs else |es|)
  {
    if negs + |es| > MAX_NEGOTIATIONS {
      TooManyFlood(es, room, negs);
    } else {
      FewAreAnswered(es, room, negs);
    }
  }

  lemma {:induction false} TooManyFlood(es: seq<Element>, room: nat, negs: nat)
    requires room > 0 && negs <= MAX_NEGOTIATIONS < negs + |es|
    requires AllRequests(es)
    ensures var r := ReadFrom(Encode(es), room, false, negs);
            && r.err == Some(NegotiationFlood) && r.data == []
            && r.replies == RepliesToFirst(es, MAX_NEGOTIATIONS + 1 - negs)
    decreases |es|
  {
    FirstRequest(es, room, negs);
    if negs < MAX_NEGOTIATIONS {
      TooManyFlood(es[1..], room, negs + 1);
    }
  }

  lemma {:induction false} FewAreAnswered(es: seq<Element>, room: nat, negs: nat)
    requires room > 0 && negs + |es| <= MAX_NEGOTIATIONS
    requires AllRequests(es)
    ensures ReadFrom(Encode(es), room, false, negs) == ReadResult([], [], RepliesToFirst(es, |es|), Some(Eof))
    decreases |es|
  {
    if es != [] {
      FirstRequest(es, room, negs);
      FewAreAnswered(es[1..], room, negs + 1);
    }
  }

  lemma FirstRequest(es: seq<Element>, room: nat, negs: nat)
    requires room > 0 && negs <= MAX_NEGOTIATIONS && es != [] && WellFormed(es[0]) && es[0].Request?
    ensures var r, reply := ReadFrom(Encode(es), room, false, negs), Reply(es[0].cmd, es[0].opt);
            if negs < MAX_NEGOTIATIONS
            then var more := ReadFrom(Encode(es[1..]), room, false, negs + 1); r == more.(replies := reply + more.replies)
            else r.err == Some(NegotiationFlood) && r.data == [] && r.replies == reply
  {
    FirstElement(es[0], Encode(es[1..]));
  }

  // Plain data that fits goes into the buffer as it is.
  lemma {:induction false} DataFills(ds: seq<Byte>, rest: seq<Byte>, room: nat, some: bool, negs: nat)
    requires |ds| < room && IAC !in ds && LF !in ds
    ensures var r := ReadFrom(rest, room - |ds|, some || ds != [], negs);
            ReadFrom(ds + rest, room, some, negs) == r.(data := ds + r.data)
    decreases |ds|
  {
    if ds == [] {
      assert ds + rest == rest;
    } else {
      assert (ds + rest)[1..] == ds[1..] + rest;
      DataFills(ds[1..], rest, room - 1, true, negs);
    }
  }

  // A subnegotiation without its end.
  predicate Unfinished(tail: seq<Byte>) {
    |tail| >= 2 && tail[0] == IAC && tail[1] == SB && Subnegotiation(tail[2..], 0).Cut?
  }

  // Where the stream ends decides what the read reports: at its end, or inside a command,
  // the data it has, and the end only without any; inside a subnegotiation, or past the
  // limit of one, the data and the error together.  A line feed ends a read.
  lemma ReadEnds(ds: seq<Byte>, cmd: Byte, tail: seq<Byte>, room: nat)
    requires |ds| < room && IAC !in ds && LF !in ds && IsOptionCommand(cmd)
    ensures var end := if ds == [] then Some(Eof) else None;
            && ReadFrom(ds, room, false, 0) == ReadResult(ds, [], [], end)
            && ReadFrom(ds + [IAC], room, false, 0) == ReadResult(ds, [], [], end)
            && ReadFrom(ds + [IAC, cmd], room, false, 0) == ReadResult(ds, [], [], end)
    ensures Unfinished(tail) ==> ReadFrom(ds + tail, room, false, 0) == ReadResult(ds, [], [], Some(Eof))
    ensures Next(tail).TooLong? ==>
      ReadFrom(ds + tail, room, false, 0) == ReadResult(ds, Next(tail).rest, [], Some(OversizedSubneg))
    ensures ReadFrom(ds + ([LF] + tail), room, false, 0) == ReadResult(ds + [LF], tail, [], None)
  {
    assert ds + [] == ds;
    DataFills(ds, [], room, false, 0);
    DataFills(ds, [IAC], room, false, 0);
    DataFills(ds, [IAC, cmd], room, false, 0);
    DataFills(ds, tail, room, false, 0);
    DataFills(ds, [LF] + tail, room, false, 0);
    assert ([LF] + tail)[1..] == tail;
  }

  // ---- the reader itself ----

  // After `got` and `sent` the rest of the read is `r`.
  ghost predicate Continues(whole: ReadResult, got: seq<Byte>, sent: seq<seq<Byte>>, r: ReadResult) {
    whole == ReadResult(got + r.data, r.rest, sent + r.replies, r.err)
  }

  lemma ContinueRead(whole: ReadResult, got: seq<Byte>, sent: seq<seq<Byte>>,
      src: seq<Byte>, room: nat, some: bool, negs: nat)
    requires room > 0
    requires Continues(whole, got, sent, ReadFrom(src, room, some, negs))
    ensures match Next(src)
      case Datum(b, rest) =>
        if b == LF then whole == ReadResult(got + [b], rest, sent, None)
        else Continues(whole, got + [b], sent, ReadFrom(rest, room - 1, true, negs))
      case Negotiation(cmd, opt, rest) =>
        if negs + 1 > MAX_NEGOTIATIONS then whole == ReadResult(got, rest, sent + Reply(cmd, opt), Some(NegotiationFlood))
        else Continues(whole, got, sent + Reply(cmd, opt), ReadFrom(rest, room, some, negs + 1))
      case Skipped(rest) => Continues(whole, got, sent, ReadFrom(rest, room, some, negs))
      case Exhausted => whole == ReadResult(got, [], sent, if some then None else Some(Eof))
      case Cut => whole == ReadResult(got, [], sent, Some(Eof))
      case TooLong(rest) => whole == ReadResult(got, rest, sent, Some(OversizedSubneg))
  {
    match Next(src)
    case Datum(b, rest) =>
      var tail := ReadFrom(rest, room - 1, true, negs).data;
      assert got + ([b] + tail) == got + [b] + tail;
    case Negotiation(cmd, opt, rest) =>
      var tail := ReadFrom(rest, room, some, negs + 1).replies;
      assert sent + (Reply(cmd, opt) + tail) == sent + Reply(cmd, opt) + tail;
    case _ =>
  }

  class IacReader {
    var src: seq<Byte>              // bytes the connection still has to give
    var replies: seq<seq<Byte>>     // what was sent back

    constructor (src: seq<Byte>)
      ensures this.src == src && replies == []
    {
      this.src := src;
      replies := [];
    }

    method ReadByte() returns (b: Byte, err: bool)
      modifies this`src
      ensures err == (old(src) == [])
      ensures err ==> src == []
      ensures !err ==> old(src) == [b] + src
    {
      if src == [] {
        return 0, true;
      }
      b, err := src[0], false;
      src := src[1..];
    }

    method Negotiate(cmd: Byte, opt: Byte)
      modifies this`replies
      ensures replies == old(replies) + Reply(cmd, opt)
    {
      if cmd == DO {
        if opt == OPT_ECHO || opt == OPT_SGA {
          return;
        }
        replies := replies + [[IAC, WONT, opt]];
      } else if cmd == WILL {
        if opt in {OPT_NAWS, OPT_TTYPE, OPT_TSPEED, OPT_XDISPLOC, OPT_NEW_ENVIRON} {
          return;
        }
        replies := replies + [[IAC, DONT, opt]];
      }
    }

    // Consumes a subnegotiation up to its IAC SE.
    method SkipSubnegotiation() returns (err: Option<Failure>)
      modifies this`src
      ensures match Subnegotiation(old(src), 0)
        case Skipped(rest) => err.None? && src == rest
        case TooLong(rest) => err == Some(OversizedSubneg) && src == rest
        case _ => err == Some(Eof) && src == []
    {
      var len := 0;
      while true
        invariant Subnegotiation(src, len) == Subnegotiation(old(src), 0)
        decreases |src|
      {
        SubnegotiationShrinks(src, len);
        if len > MAX_SUBNEG_LEN {
          return Some(OversizedSubneg);
        }
        ghost var at := src;
        var x, failed := ReadByte();
        if failed {
          return Some(Eof);
        }
        assert at[1..] == src;
        if x == IAC {
          var y, failed := ReadByte();
          if failed {
            return Some(Eof);
          }
          assert at == [x, y] + src && at[2..] == src;
          if y == SE {
            return None;
          }
        }
        len := len + 1;
      }
    }

    // Consumes one item of the stream.
    method NextItem() returns (item: Item)
      modifies this`src
      ensures item == Next(old(src))
      ensures src == if item.Exhausted? || item.Cut? then [] else item.rest
    {
      ghost var at := src;
      var b, failed := ReadByte();
      if failed {
        return Exhausted;
      }
      if b != IAC {
        return Datum(b, src);
      }
      var c, failed' := ReadByte();
      if failed' {
        return Exhausted;
      }
      assert at == [b, c] + src;
      if c == IAC {
        return Datum(IAC, src);
      }
      if IsOptionCommand(c) {
        var opt, failed'' := ReadByte();
        if failed'' {
          return Exhausted;
        }
        assert at == [b, c, opt] + src;
        return Negotiation(c, opt, src);
      }
      if c == SB {
        SubnegotiationShrinks(src, 0);
        var failure := SkipSubnegotiation();
        return match failure
          case None => Skipped(src)
          case Some(OversizedSubneg) => TooLong(src)
          case Some(_) => Cut;
      }
      return Skipped(src);
    }

    method Read(p: array<Byte>) returns (n: nat, err: Option<Failure>)
      modifies this, p
      ensures var r := ReadFrom(old(src), p.Length, false, 0);
              && n == |r.data| <= p.Length
              && p[..n] == r.data
              && src == r.rest
              && replies == old(replies) + r.replies
              && err == r.err
    {
      n := 0;
      var negs := 0;
      ghost var whole := ReadFrom(src, p.Length, false, 0);
      ghost var sent := [];
      ghost var base := replies;
      assert base + [] == base;
      while n < p.Length
        invariant n <= p.Length
        invariant replies == base + sent
        invariant Continues(whole, p[..n], sent, ReadFrom(src, p.Length - n, n > 0, negs))
        decreases |src|
      {
        var done;
        n, negs, done, err, sent := Turn(p, n, negs, whole, base, sent);
        if done {
          return;
        }
      }
      err := None;
    }

    // One turn of the loop in `Read`: one item of the stream.
    method Turn(p: array<Byte>, n0: nat, negs0: nat, ghost whole: ReadResult, ghost base: seq<seq<Byte>>,
                ghost sent: seq<seq<Byte>>)
        returns (n: nat, negs: nat, done: bool, err: Option<Failure>, ghost sent': seq<seq<Byte>>)
      requires n0 < p.Length && replies == base + sent
      requires Continues(whole, p[..n0], sent, ReadFrom(src, p.Length - n0, n0 > 0, negs0))
      modifies this, p
      ensures n <= p.Length
      ensures replies == base + sent'
      ensures done ==> whole == ReadResult(p[..n], src, sent', err)
      ensures !done ==> Continues(whole, p[..n], sent', ReadFrom(src, p.Length - n, n > 0, negs))
      ensures !done ==> |src| < |old(src)|
    {
      NextShrinks(src);
      ContinueRead(whole, p[..n0], sent, src, p.Length - n0, n0 > 0, negs0);
      n, negs, done, err, sent' := n0, negs0, false, None, sent;
      var item := NextItem();
      match item
      case Datum(b, _) =>
        p[n] := b;
        n := n + 1;
        assert p[..n] == old(p[..n0]) + [b];
        // IAC IAC is data too, but never a line feed
        done := b == LF;
      case Negotiation(cmd, opt, _) =>
        Negotiate(cmd, opt);
        sent' := sent + Reply(cmd, opt);
        ConcatAssociates(base, sent, Reply(cmd, opt));
        negs := negs + 1;
        if negs > MAX_NEGOTIATIONS {
          done, err := true, Some(NegotiationFlood);
        }
      case Skipped(_) =>
      case Exhausted =>
        done, err := true, if n > 0 then None else Some(Eof);
      case Cut =>
        done, err := true, Some(Eof);
      case TooLong(_) =>
        done, err := true, Some(OversizedSubneg);
    }
  }
}
