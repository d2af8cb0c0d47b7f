// The `echo` command and its backslash escapes.
module Echo {
  import opened Basics

  predicate IsHexDigit(c: char) {
    '0' <= c <= '9' || 'a' <= c <= 'f' || 'A' <= c <= 'F'
  }

  function HexDigitVal(c: char): (v: nat)
    ensures IsHexDigit(c) ==> v < 16
  {
    if '0' <= c <= '9' then c as int - '0' as int
    else if 'a' <= c <= 'f' then c as int - 'a' as int + 10
    else if 'A' <= c <= 'F' then c as int - 'A' as int + 10
    else 0
  }

  predicate IsOctalDigit(c: char) {
    '0' <= c <= '7'
  }

  // Up to `most` digits at the start of `s`.
  function DigitRun(s: string, p: char -> bool, most: nat): (n: nat)
    ensures n <= |s| && n <= most
  {
    if most == 0 || s == "" || !p(s[0]) then 0 else 1 + DigitRun(s[1..], p, most - 1)
  }

  function HexValue(s: string): nat {
    if s == "" then 0 else HexValue(s[..|s| - 1]) * 16 + HexDigitVal(s[|s| - 1])
  }

  function OctalValue(s: string): nat {
    if s == "" then 0
    else OctalValue(s[..|s| - 1]) * 8 + (if IsOctalDigit(s[|s| - 1]) then s[|s| - 1] as int - '0' as int else 0)
  }

  function Byte(n: nat): char {
    (n % 256) as char
  }

  // The one-letter escapes.
  function Letter(c: char): (out: string)
    ensures out != ""
  {
    if c == 'n' then [10 as char]
    else if c == 't' then [9 as char]
    else if c == 'r' then [13 as char]
    else if c == 'a' then [7 as char]
    else if c == 'b' then [8 as char]
    else if c == 'f' then [12 as char]
    else if c == 'v' then [11 as char]
    else if c == 'e' then [27 as char]
    else if c == '\\' then ['\\']
    else ['\\', c]
  }

  // What the text at the start of `s` stands for, and how far it reaches.
  function DecodeItem(s: string): (r: (string, nat))
    requires s != ""
    ensures 0 < r.1 <= |s|
  {
    if s[0] != '\\' || |s| == 1 then ([s[0]], 1)
    else if s[1] == 'x' then
      var n := DigitRun(s[2..], IsHexDigit, 2);
      if n == 0 then ("\\x", 2) else ([Byte(HexValue(s[2..][..n]))], n + 2)
    else if s[1] == '0' then
      var n := DigitRun(s[2..], IsOctalDigit, 3);
      ([Byte(OctalValue(s[2..][..n]))], n + 2)
    else (Letter(s[1]), 2)
  }

  function Decode(s: string): string
    decreases |s|
  {
    if s == "" then ""
    else
      var (out, n) := DecodeItem(s);
      out + Decode(s[n..])
  }

  // ---- the command ----

  predicate IsFlag(w: string) {
    w in {"-n", "-e", "-ne", "-en", "-E"}
  }

  function Join(words: seq<string>): string {
    if words == [] then "" else if |words| == 1 then words[0] else words[0] + " " + Join(words[1..])
  }

  function EchoRest(rest: seq<string>, nl: bool, escape: bool): string
    decreases |rest|
  {
    if rest != [] && IsFlag(rest[0]) then
      EchoRest(rest[1..],
        if 'n' in rest[0] then false else nl,
        if rest[0] == "-E" then false else if 'e' in rest[0] then true else escape)
    else
      var text := Join(rest);
      (if escape then Decode(text) else text) + (if nl then "\n" else "")
  }

  function EchoOutput(args: seq<string>): string
    requires args != []
  {
    EchoRest(args[1..], true, false)
  }

  // ---- spelling bytes ----

  // The ways to write one byte: itself, a letter for a control character or a backslash,
  // one or two hexadecimal digits of either case, and up to three octal digits.
  datatype Escape = Raw(c: char) | Named(code: nat) | Hex(nibbles: seq<Nibble>) | Octal(digits: seq<nat>)

  datatype Nibble = Nibble(value: nat, upper: bool)

  const NAMED := map[7 := 'a', 8 := 'b', 9 := 't', 10 := 'n', 11 := 'v', 12 := 'f', 13 := 'r', 27 := 'e', 92 := '\\']

  function NibbleChar(d: Nibble): char {
    if d.value < 16 then (if d.upper then "0123456789ABCDEF" else "0123456789abcdef")[d.value] else '?'
  }

  function NibbleText(digits: seq<Nibble>): string {
    seq(|digits|, i requires 0 <= i < |digits| => NibbleChar(digits[i]))
  }

  function OctalText(digits: seq<nat>): string {
    seq(|digits|, i requires 0 <= i < |digits| => if digits[i] < 8 then "01234567"[digits[i]] else '?')
  }

  function TextOf(e: Escape): string {
    match e
    case Raw(c) => [c]
    case Named(code) => ['\\', if code in NAMED then NAMED[code] else '?']
    case Hex(digits) => "\\x" + NibbleText(digits)
    case Octal(digits) => "\\0" + OctalText(digits)
  }

  // The byte meant: for digits the number they are, cut to eight bits.
  function ByteOf(e: Escape): char {
    match e
    case Raw(c) => c
    case Named(code) => if code < 256 then code as char else ' '
    case Hex(digits) =>
      if |digits| == 1 && digits[0].value < 16 then digits[0].value as char
      else if |digits| == 2 && digits[0].value < 16 && digits[1].value < 16
      then (16 * digits[0].value + digits[1].value) as char
      else ' '
    case Octal(digits) =>
      if |digits| == 0 then 0 as char
      else if |digits| == 1 then (digits[0] % 256) as char
      else if |digits| == 2 then ((8 * digits[0] + digits[1]) % 256) as char
      else if |digits| == 3 then ((64 * digits[0] + 8 * digits[1] + digits[2]) % 256) as char
      else ' '
  }

  // Nothing in `rest` runs on into at most `most` digits of which there are `n`.
  predicate EndsDigits(n: nat, p: char -> bool, most: nat, rest: string) {
    n <= most && (n < most && rest != "" ==> !p(rest[0]))
  }

  // `e` can stand in front of `rest`.
  predicate Fits(e: Escape, rest: string) {
    match e
    case Raw(c) => c == '\\' ==> rest == ""
    case Named(code) => code in NAMED
    case Hex(digits) =>
      digits != [] && (forall d :: d in digits ==> d.value < 16) && EndsDigits(|digits|, IsHexDigit, 2, rest)
    case Octal(digits) =>
      (forall d :: d in digits ==> d < 8) && EndsDigits(|digits|, IsOctalDigit, 3, rest)
  }

  function Text(es: seq<Escape>): string {
    if es == [] then "" else TextOf(es[0]) + Text(es[1..])
  }

  function Bytes(es: seq<Escape>): string {
    if es == [] then "" else [ByteOf(es[0])] + Bytes(es[1..])
  }

  predicate Spelled(es: seq<Escape>) {
    es == [] || (Fits(es[0], Text(es[1..])) && Spelled(es[1..]))
  }

  lemma {:induction false} RunOfDigits(digits: string, p: char -> bool, most: nat, rest: string)
    requires EndsDigits(|digits|, p, most, rest) && forall i :: 0 <= i < |digits| ==> p(digits[i])
    ensures DigitRun(digits + rest, p, most) == |digits|
  {
    if digits == "" {
      assert digits + rest == rest;
    } else {
      assert (digits + rest)[1..] == digits[1..] + rest;
      RunOfDigits(digits[1..], p, most - 1, rest);
    }
  }

  lemma NibbleReads(d: Nibble)
    requires d.value < 16
    ensures IsHexDigit(NibbleChar(d)) && HexDigitVal(NibbleChar(d)) == d.value
  {
  }

  lemma HexDigits(digits: seq<Nibble>)
    requires forall d :: d in digits ==> d.value < 16
    ensures forall i :: 0 <= i < |digits| ==>
      IsHexDigit(NibbleText(digits)[i]) && HexDigitVal(NibbleText(digits)[i]) == digits[i].value
  {
    forall i | 0 <= i < |digits|
      ensures IsHexDigit(NibbleText(digits)[i]) && HexDigitVal(NibbleText(digits)[i]) == digits[i].value
    {
      assert digits[i] in digits;
      NibbleReads(digits[i]);
    }
  }

  lemma HexReads(digits: seq<Nibble>)
    requires 0 < |digits| <= 2 && forall d :: d in digits ==> d.value < 16
    ensures Byte(HexValue(NibbleText(digits))) == ByteOf(Hex(digits))
  {
    HexDigits(digits);
    if |digits| == 1 {
      HexOne(NibbleText(digits));
    } else {
      HexTwo(NibbleText(digits));
    }
  }

  lemma HexOne(text: string)
    requires |text| == 1
    ensures HexValue(text) == HexDigitVal(text[0])
  {
    assert text[..0] == "" && HexValue("") == 0;
  }

  lemma HexTwo(text: string)
    requires |text| == 2
    ensures HexValue(text) == HexDigitVal(text[0]) * 16 + HexDigitVal(text[1])
  {
    HexOne(text[..1]);
  }

  lemma OctalDigits(digits: seq<nat>)
    requires forall d :: d in digits ==> d < 8
    ensures forall i :: 0 <= i < |digits| ==>
      IsOctalDigit(OctalText(digits)[i]) && OctalText(digits)[i] as int - '0' as int == digits[i]
  {
    forall i | 0 <= i < |digits|
      ensures IsOctalDigit(OctalText(digits)[i]) && OctalText(digits)[i] as int - '0' as int == digits[i]
    {
      assert digits[i] in digits;
      OctalCharReads(digits[i]);
    }
  }

  lemma OctalCharReads(d: nat)
    requires d < 8
    ensures IsOctalDigit("01234567"[d]) && "01234567"[d] as int - '0' as int == d
  {
  }

  lemma OctalReads(digits: seq<nat>)
    requires |digits| <= 3 && forall d :: d in digits ==> d < 8
    ensures Byte(OctalValue(OctalText(digits))) == ByteOf(Octal(digits))
  {
    var text := OctalText(digits);
    OctalDigits(digits);
    if |digits| == 1 {
      OctalOne(text);
    } else if |digits| == 2 {
      OctalTwo(text);
    } else if |digits| == 3 {
      OctalThree(text);
    }
  }

  lemma OctalOne(text: string)
    requires |text| == 1 && IsOctalDigit(text[0])
    ensures OctalValue(text) == text[0] as int - '0' as int
  {
    assert text[..0] == "" && OctalValue("") == 0;
  }

  lemma OctalTwo(text: string)
    requires |text| == 2 && IsOctalDigit(text[0]) && IsOctalDigit(text[1])
    ensures OctalValue(text) == 8 * (text[0] as int - '0' as int) + (text[1] as int - '0' as int)
  {
    OctalOne(text[..1]);
  }

  lemma OctalThree(text: string)
    requires |text| == 3 && forall i :: 0 <= i < 3 ==> IsOctalDigit(text[i])
    ensures OctalValue(text)
         == 64 * (text[0] as int - '0' as int) + 8 * (text[1] as int - '0' as int) + (text[2] as int - '0' as int)
  {
    OctalTwo(text[..2]);
  }

  lemma BehindTwo(head: string, digits: string, rest: string)
    requires |head| == 2
    ensures var s := head + digits + rest;
            |s| >= 2 && s[0] == head[0] && s[1] == head[1] && s[2..] == digits + rest
    ensures (digits + rest)[..|digits|] == digits
  {
  }

  lemma HexDecodes(digits: seq<Nibble>, rest: string)
    requires Fits(Hex(digits), rest)
    ensures DecodeItem("\\x" + NibbleText(digits) + rest) == ([ByteOf(Hex(digits))], |digits| + 2)
  {
    HexReads(digits);
    HexDigits(digits);
    BehindTwo("\\x", NibbleText(digits), rest);
    RunOfDigits(NibbleText(digits), IsHexDigit, 2, rest);
  }

  lemma OctalDecodes(digits: seq<nat>, rest: string)
    requires Fits(Octal(digits), rest)
    ensures DecodeItem("\\0" + OctalText(digits) + rest) == ([ByteOf(Octal(digits))], |digits| + 2)
  {
    OctalReads(digits);
    OctalDigits(digits);
    BehindTwo("\\0", OctalText(digits), rest);
    RunOfDigits(OctalText(digits), IsOctalDigit, 3, rest);
  }

  lemma LetterDecodes(code: nat, rest: string)
    requires Fits(Named(code), rest)
    ensures DecodeItem(['\\', NAMED[code]] + rest) == ([code as char], 2)
  {
    var s := ['\\', NAMED[code]] + rest;
    assert s[0] == '\\' && s[1] == NAMED[code];
    LetterIs(code);
  }

  lemma LetterIs(code: nat)
    requires code in NAMED
    ensures NAMED[code] != 'x' && NAMED[code] != '0' && Letter(NAMED[code]) == [code as char]
  {
  }

  lemma RawDecodes(c: char, rest: string)
    requires Fits(Raw(c), rest)
    ensures DecodeItem([c] + rest) == ([c], 1)
  {
  }

  lemma DecodeSpelled(e: Escape, rest: string)
    requires Fits(e, rest)
    ensures DecodeItem(TextOf(e) + rest) == ([ByteOf(e)], |TextOf(e)|)
  {
    match e
    case Raw(c) => RawDecodes(c, rest);
    case Named(code) => LetterDecodes(code, rest);
    case Hex(digits) => HexDecodes(digits, rest);
    case Octal(digits) => OctalDecodes(digits, rest);
  }

  lemma DecodeUnfolds(s: string, out: string, n: nat, rest: string)
    requires s != "" && DecodeItem(s) == (out, n) && s[n..] == rest
    ensures Decode(s) == out + Decode(rest)
  {}

  // Decoding gives back the bytes, however each of them was written.
  lemma {:induction false} DecodeOfSpelled(es: seq<Escape>)
    requires Spelled(es)
    ensures Decode(Text(es)) == Bytes(es)
    decreases |es|
  {
    if es != [] {
      var e, rest := es[0], Text(es[1..]);
      DecodeSpelled(e, rest);
      DecodeUnfolds(TextOf(e) + rest, [ByteOf(e)], |TextOf(e)|, rest);
      DecodeOfSpelled(es[1..]);
    }
  }

  // A backslash before anything else stays, and so does \x without a digit.
  lemma UnknownStays(c: char, rest: string)
    requires c !in "ntrabfve\\x0" || (c == 'x' && (rest != "" ==> !IsHexDigit(rest[0])))
    ensures Decode(['\\', c] + rest) == ['\\', c] + Decode(rest)
  {
    var s := ['\\', c] + rest;
    assert s[0] == '\\' && s[1] == c && s[2..] == rest;
    if c == 'x' {
      assert DigitRun(rest, IsHexDigit, 2) == 0;
    } else {
      UnknownLetter(c);
    }
    DecodeUnfolds(s, ['\\', c], 2, rest);
  }

  lemma UnknownLetter(c: char)
    requires c !in "ntrabfve\\x0"
    ensures c != 'x' && c != '0' && Letter(c) == ['\\', c]
  {
  }

  lemma {:induction false} BytesConcat(a: seq<Escape>, b: seq<Escape>)
    ensures Bytes(a + b) == Bytes(a) + Bytes(b)
    decreases |a|
  {
    if a == [] {
      assert a + b == b;
    } else {
      assert (a + b)[1..] == a[1..] + b;
      BytesConcat(a[1..], b);
      ConcatAssociates([ByteOf(a[0])], Bytes(a[1..]), Bytes(b));
    }
  }

  predicate IsBytes(s: string) {
    forall i :: 0 <= i < |s| ==> s[i] as int < 256
  }

  // Every byte as \xHH.
  function Spell(bytes: string): seq<Escape>
    requires IsBytes(bytes)
  {
    if bytes == "" then []
    else
      var b := bytes[0] as int;
      [SpellByte(b)] + Spell(bytes[1..])
  }

  function SpellByte(b: nat): Escape {
    Hex([Nibble(b / 16, false), Nibble(b % 16, false)])
  }

  lemma ByteIsSpelled(b: nat, rest: string)
    requires b < 256
    ensures Fits(SpellByte(b), rest) && ByteOf(SpellByte(b)) == b as char
  {
    assert b == 16 * (b / 16) + b % 16 && b / 16 < 16;
  }

  // Any bytes at all can be written so.
  lemma {:induction false} SpellIsSpelled(bytes: string)
    requires IsBytes(bytes)
    ensures Spelled(Spell(bytes)) && Bytes(Spell(bytes)) == bytes
    decreases |bytes|
  {
    if bytes != "" {
      var b := bytes[0] as int;
      SpellIsSpelled(bytes[1..]);
      assert Spell(bytes)[1..] == Spell(bytes[1..]);
      ByteIsSpelled(b, Text(Spell(bytes[1..])));
      assert [bytes[0]] + bytes[1..] == bytes;
    }
  }

  // ---- flags ----

  // What the command prints, whatever flags stand in front: a newline unless one of them
  // has an n, and escapes decoded if one has an e and no -E stands behind it.
  predicate Decodes(flags: seq<string>) {
    exists i :: 0 <= i < |flags| && flags[i] in ["-e", "-ne", "-en"] && "-E" !in flags[i..]
  }

  predicate KeepsLine(flags: seq<string>) {
    "-n" !in flags && "-ne" !in flags && "-en" !in flags
  }

  lemma {:induction false} FlagsMean(flags: seq<string>, words: seq<string>, nl: bool, escape: bool)
    requires (forall f :: f in flags ==> IsFlag(f)) && (words != [] ==> !IsFlag(words[0]))
    ensures EchoRest(flags + words, nl, escape)
         == EchoRest(words, nl && KeepsLine(flags), Decodes(flags) || (escape && "-E" !in flags))
    decreases |flags|
  {
    if flags == [] {
      assert flags + words == words;
    } else {
      var f, rest := flags[0], flags[1..];
      assert (flags + words)[0] == f && (flags + words)[1..] == rest + words;
      FlagsMean(rest, words, if 'n' in f then false else nl,
        if f == "-E" then false else if 'e' in f then true else escape);
      FlagLetters(f);
      DecodesFirst(flags);
    }
  }

  lemma FlagLetters(f: string)
    requires IsFlag(f)
    ensures 'n' in f <==> f in ["-n", "-ne", "-en"]
    ensures f != "-E" ==> ('e' in f <==> f in ["-e", "-ne", "-en"])
  {
  }

  lemma DecodesFirst(flags: seq<string>)
    requires flags != []
    ensures Decodes(flags) <==> Decodes(flags[1..]) || (flags[0] in ["-e", "-ne", "-en"] && "-E" !in flags)
    ensures "-E" in flags <==> flags[0] == "-E" || "-E" in flags[1..]
    ensures KeepsLine(flags) <==> KeepsLine([flags[0]]) && KeepsLine(flags[1..])
  {
    var rest := flags[1..];
    assert flags[0..] == flags;
    assert flags == [flags[0]] + rest;
    if i :| 0 <= i < |flags| && flags[i] in ["-e", "-ne", "-en"] && "-E" !in flags[i..] {
      if i > 0 {
        assert rest[i - 1..] == flags[i..] && rest[i - 1] == flags[i];
      }
    }
    if i :| 0 <= i < |rest| && rest[i] in ["-e", "-ne", "-en"] && "-E" !in rest[i..] {
      assert flags[i + 1..] == rest[i..] && flags[i + 1] == rest[i];
    }
  }

  lemma EchoPrints(flags: seq<string>, words: seq<string>)
    requires (forall f :: f in flags ==> IsFlag(f)) && (words != [] ==> !IsFlag(words[0]))
    ensures var text := if Decodes(flags) then Decode(Join(words)) else Join(words);
            EchoOutput(["echo"] + flags + words) == if KeepsLine(flags) then text + "\n" else text
  {
    assert (["echo"] + flags + words)[1..] == flags + words;
    FlagsMean(flags, words, true, false);
    var text := if Decodes(flags) then Decode(Join(words)) else Join(words);
    assert text + "" == text;
  }

  // Words are joined with single spaces.
  lemma {:induction false} JoinConcat(a: seq<string>, b: seq<string>)
    requires a != [] && b != []
    ensures Join(a + b) == Join(a) + " " + Join(b)
    decreases |a|
  {
    if |a| == 1 {
      assert (a + b)[1..] == b && (a + b)[0] == a[0];
    } else {
      assert (a + b)[1..] == a[1..] + b && (a + b)[0] == a[0];
      JoinConcat(a[1..], b);
      assert a[0] + " " + (Join(a[1..]) + " " + Join(b)) == a[0] + " " + Join(a[1..]) + " " + Join(b);
    }
  }

  // ---- the loops ----

  method CmdEcho(args: seq<string>) returns (out: string)
    requires args != []
    ensures out == EchoOutput(args)
  {
    var rest, nl, escape := args[1..], true, false;
    while |rest| > 0 && IsFlag(rest[0])
      invariant EchoRest(rest, nl, escape) == EchoOutput(args)
      decreases |rest|
    {
      if 'n' in rest[0] {
        nl := false;
      }
      if 'e' in rest[0] {
        escape := true;
      }
      if rest[0] == "-E" {
        escape := false;
      }
      rest := rest[1..];
    }
    out := Join(rest);
    if escape {
      out := DecodeEscapes(out);
    }
    if nl {
      out := out + "\n";
    } else {
      assert out + "" == out;
    }
  }

  // `rest` is what the unread text decodes to.
  method DecodeEscapes(s: string) returns (b: string)
    ensures b == Decode(s)
  {
    b := "";
    var i := 0;
    assert s[0..] == s;
    ghost var rest := Decode(s[0..]);
    while i < |s|
      invariant i <= |s|
      invariant rest == Decode(s[i..])
      invariant b + rest == Decode(s)
    {
      var out, n := DecodeNext(s, i);
      ConcatAssociates(b, out, Decode(s[i + n..]));
      b, i, rest := b + out, i + n, Decode(s[i + n..]);
    }
  }

  method DecodeNext(s: string, i: nat) returns (out: string, n: nat)
    requires i < |s|
    ensures 0 < n <= |s| - i
    ensures Decode(s[i..]) == out + Decode(s[i + n..])
  {
    out, n := DecodeAt(s, i);
    DecodeUnfolds(s[i..], out, n, s[i + n..]);
  }

  // One turn of that loop.
  method DecodeAt(s: string, i: nat) returns (out: string, n: nat)
    requires i < |s|
    ensures (out, n) == DecodeItem(s[i..])
  {
    assert s[i..][0] == s[i];
    if s[i] != '\\' || i + 1 >= |s| {
      return [s[i]], 1;
    }
    assert s[i..][1] == s[i + 1] && s[i..][2..] == s[i + 2..];
    if s[i + 1] == 'x' {
      var h, k := ReadHex(s[i + 2..]);
      return if k == 0 then "\\x" else [Byte(h)], k + 2;
    }
    if s[i + 1] == '0' {
      var o, k := ReadOctal(s[i + 2..]);
      return [Byte(o)], k + 2;
    }
    return Letter(s[i + 1]), 2;
  }

  method ReadHex(t: string) returns (h: nat, k: nat)
    ensures k == DigitRun(t, IsHexDigit, 2) && h == HexValue(t[..k])
  {
    h, k := 0, 0;
    while k < 2 && k < |t| && IsHexDigit(t[k])
      invariant k <= 2 && k <= |t|
      invariant k + DigitRun(t[k..], IsHexDigit, 2 - k) == DigitRun(t, IsHexDigit, 2)
      invariant h == HexValue(t[..k])
    {
      assert t[k..][1..] == t[k + 1..] && t[..k + 1][..k] == t[..k];
      h := h * 16 + HexDigitVal(t[k]);
      k := k + 1;
    }
  }

  method ReadOctal(t: string) returns (o: nat, k: nat)
    ensures k == DigitRun(t, IsOctalDigit, 3) && o == OctalValue(t[..k])
  {
    o, k := 0, 0;
    while k < 3 && k < |t| && IsOctalDigit(t[k])
      invariant k <= 3 && k <= |t|
      invariant k + DigitRun(t[k..], IsOctalDigit, 3 - k) == DigitRun(t, IsOctalDigit, 3)
      invariant o == OctalValue(t[..k])
    {
      assert t[k..][1..] == t[k + 1..] && t[..k + 1][..k] == t[..k];
      o := o * 8 + (t[k] as int - '0' as int);
      k := k + 1;
    }
  }
}
