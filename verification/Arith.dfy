// Shell arithmetic: the recursive-descent evaluator of $((...)), and a printer it inverts.
module Arith {
  import opened Ints

  type Env = map<string, string>

  predicate IsWordChar(c: char) {
    c == '_' || IsDigit(c) || 'A' <= c <= 'Z' || 'a' <= c <= 'z'
  }

  function Getenv(env: Env, name: string): string {
    if name in env then env[name] else ""
  }

  // A variable that is unset or no number counts as 0.
  function VarValue(env: Env, name: string): (v: int)
    ensures IsInt64(v)
  {
    var n := Atoi(Getenv(env, name));
    if n.Some? then n.value else 0
  }

  function Apply(op: char, v: int, r: int): (n: int)
    ensures IsInt64(n)
  {
    if op == '+' then Wrap(v + r)
    else if op == '-' then Wrap(v - r)
    else if op == '*' then Wrap(v * r)
    else if r == 0 then 0
    else if op == '/' then Wrap(Quo(v, r))
    else Wrap(Rem(v, r))
  }

  // Addition, subtraction and multiplication are those of the integers up to whole turns
  // of 64 bits, and exact when the result fits.
  lemma RingOperators(v: int, r: int)
    requires IsInt64(v) && IsInt64(r)
    ensures (v + r - Apply('+', v, r)) % TWO_64 == 0 && (IsInt64(v + r) ==> Apply('+', v, r) == v + r)
    ensures (v - r - Apply('-', v, r)) % TWO_64 == 0 && (IsInt64(v - r) ==> Apply('-', v, r) == v - r)
    ensures (v * r - Apply('*', v, r)) % TWO_64 == 0 && (IsInt64(v * r) ==> Apply('*', v, r) == v * r)
  {
    WrapTurns(v + r);
    WrapTurns(v - r);
    WrapTurns(v * r);
  }

  // Division truncates toward zero; dividing by zero gives 0, and the one quotient that
  // does not fit wraps to its dividend.
  lemma DivisionOperators(v: int, r: int)
    requires IsInt64(v) && IsInt64(r)
    ensures var q, m := Apply('/', v, r), Apply('%', v, r);
            && (r == 0 ==> q == 0 && m == 0)
            && (r == -1 && v == -TWO_63 ==> q == v && m == 0)
            && (r != 0 && !(r == -1 && v == -TWO_63) ==>
                  v == r * q + m && Abs(m) < Abs(r) && (v >= 0 ==> m >= 0) && (v <= 0 ==> m <= 0))
  {
    if r != 0 {
      QuoRem(v, r);
      QuoShrinks(v, r);
      QuotientFits(v, r);
    }
  }

  // Only the least number by minus one leaves the 64 bits.
  lemma QuotientFits(v: int, r: int)
    requires IsInt64(v) && IsInt64(r) && r != 0
    ensures !(r == -1 && v == -TWO_63) ==> IsInt64(Quo(v, r))
    ensures IsInt64(Rem(v, r))
    ensures r == -1 ==> Quo(v, r) == -v && Rem(v, r) == 0
  {
    QuoRem(v, r);
    QuoShrinks(v, r);
    if r == 1 || r == -1 {
      assert Rem(v, r) == 0;
    }
  }

  // ---- the evaluator, on the text still to be read ----

  function Ws(s: string): (t: string)
    ensures |t| <= |s|
    ensures t != "" ==> t[0] != ' '
  {
    if s != "" && s[0] == ' ' then Ws(s[1..]) else s
  }

  predicate Starts(s: string, ops: string) {
    s != "" && s[0] in ops
  }

  function Span(s: string, p: char -> bool): (n: nat)
    ensures n <= |s|
  {
    if s != "" && p(s[0]) then 1 + Span(s[1..], p) else 0
  }

  function ReadAdd(env: Env, s: string): (r: (int, string))
    ensures |r.1| <= |s| && IsInt64(r.0)
    decreases |s|, 3
  {
    var (v, t) := ReadMul(env, s);
    AddLoop(env, v, t)
  }

  function AddLoop(env: Env, v: int, s: string): (r: (int, string))
    ensures |r.1| <= |s| && (IsInt64(v) ==> IsInt64(r.0))
    decreases |s|, 0
  {
    var t := Ws(s);
    if Starts(t, "+-") then
      var (r, u) := ReadMul(env, t[1..]);
      AddLoop(env, Apply(t[0], v, r), u)
    else (v, t)
  }

  function ReadMul(env: Env, s: string): (r: (int, string))
    ensures |r.1| <= |s| && IsInt64(r.0)
    decreases |s|, 2
  {
    var (v, t) := ReadUnary(env, s);
    MulLoop(env, v, t)
  }

  function MulLoop(env: Env, v: int, s: string): (r: (int, string))
    ensures |r.1| <= |s| && (IsInt64(v) ==> IsInt64(r.0))
    decreases |s|, 0
  {
    var t := Ws(s);
    if Starts(t, "*/%") then
      var (r, u) := ReadUnary(env, t[1..]);
      MulLoop(env, Apply(t[0], v, r), u)
    else (v, t)
  }

  function ReadUnary(env: Env, s: string): (r: (int, string))
    ensures |r.1| <= |s| && IsInt64(r.0)
    decreases |s|, 1
  {
    var t := Ws(s);
    if Starts(t, "-") then
      var (v, u) := ReadUnary(env, t[1..]);
      (Wrap(-v), u)
    else if Starts(t, "+") then ReadUnary(env, t[1..])
    else ReadPrimary(env, t)
  }

  function ReadPrimary(env: Env, s: string): (r: (int, string))
    ensures |r.1| <= |s| && IsInt64(r.0)
    decreases |s|, 0
  {
    var t := Ws(s);
    if Starts(t, "(") then
      var (v, u) := ReadAdd(env, t[1..]);
      var w := Ws(u);
      (v, if Starts(w, ")") then w[1..] else w)
    else Operand(env, if Starts(t, "$") then t[1..] else t)
  }

  // A number or a name; anything else counts as 0 and is not consumed.
  function Operand(env: Env, t: string): (r: (int, string))
    ensures |r.1| <= |t| && IsInt64(r.0)
  {
    var d := Span(t, IsDigit);
    SpanHolds(t, IsDigit);
    if d > 0 then (AtoiClamped(t[..d]), t[d..])
    else
      var w := Span(t, IsWordChar);
      if w > 0 then (VarValue(env, t[..w]), t[w..]) else (0, t)
  }

  lemma {:induction false} SpanHolds(s: string, p: char -> bool)
    ensures forall i :: 0 <= i < Span(s, p) ==> p(s[i])
  {
    if s != "" && p(s[0]) {
      SpanHolds(s[1..], p);
      forall i | 0 < i < Span(s, p) ensures p(s[i]) {
        assert s[i] == s[1..][i - 1];
      }
    }
  }

  function EvalArith(env: Env, expr: string): int {
    ReadAdd(env, expr).0
  }

  // ---- expressions and their text ----

  datatype Expr =
    | Lit(sp: nat, digits: string)
    | Name(sp: nat, dollar: bool, name: string)
    | Sign(sp: nat, minus: bool, e: Expr)
    | Bin(op: char, l: Expr, sp: nat, r: Expr, open: nat, close: nat)

  // `sp` is how many spaces precede the node's own token; `open` and `close` how many
  // precede its parentheses where it needs them.
  predicate WellFormed(e: Expr) {
    match e
    case Lit(_, digits) => digits != "" && AllDigits(digits)
    case Name(_, _, name) => name != "" && !IsDigit(name[0]) && forall i :: 0 <= i < |name| ==> IsWordChar(name[i])
    case Sign(_, _, e) => WellFormed(e)
    case Bin(op, l, _, r, _, _) => op in "+-*/%" && WellFormed(l) && WellFormed(r)
  }

  // The value an expression has: operators associate to the left by the tree's shape.
  function Value(env: Env, e: Expr): (v: int)
    requires WellFormed(e)
    ensures IsInt64(v)
  {
    match e
    case Lit(_, digits) => AtoiClamped(digits)
    case Name(_, _, name) => VarValue(env, name)
    case Sign(_, minus, e) => if minus then Wrap(-Value(env, e)) else Value(env, e)
    case Bin(op, l, _, r, _, _) => Apply(op, Value(env, l), Value(env, r))
  }

  function Prec(e: Expr): nat {
    if e.Bin? then if e.op == '+' || e.op == '-' then 0 else 1 else 2
  }

  function Sp(n: nat): string {
    if n == 0 then "" else " " + Sp(n - 1)
  }

  // Text of `e` where an operand of precedence `level` is wanted: parentheses go
  // exactly where the tree would otherwise be read differently.
  function Show(e: Expr, level: nat): string
    decreases e, 1
  {
    if e.Bin? && Prec(e) < level then Sp(e.open) + "(" + Body(e) + Sp(e.close) + ")" else Body(e)
  }

  function Body(e: Expr): string
    decreases e, 0
  {
    match e
    case Lit(sp, digits) => Sp(sp) + digits
    case Name(sp, dollar, name) => Sp(sp) + (if dollar then "$" else "") + name
    case Sign(sp, minus, e) => Sp(sp) + (if minus then "-" else "+") + Show(e, 2)
    case Bin(op, l, sp, r, _, _) => Show(l, Prec(Bin(op, l, sp, r, 0, 0))) + Sp(sp) + [op] + Show(r, Prec(Bin(op, l, sp, r, 0, 0)) + 1)
  }

  // Nothing that would extend a number or a name.
  predicate Boundary(s: string) {
    s == "" || !IsWordChar(s[0])
  }

  lemma {:induction false} WsSkips(n: nat, s: string)
    ensures Ws(Sp(n) + s) == Ws(s)
  {
    if n > 0 {
      WsSkips(n - 1, s);
      assert (Sp(n) + s)[1..] == Sp(n - 1) + s;
    } else {
      assert Sp(n) + s == s;
    }
  }

  lemma {:induction false} WsTwice(s: string)
    ensures Ws(Ws(s)) == Ws(s)
  {
    if s != "" && s[0] == ' ' {
      WsTwice(s[1..]);
    }
  }

  lemma {:induction false} SpanExact(word: string, rest: string, p: char -> bool)
    requires forall i :: 0 <= i < |word| ==> p(word[i])
    requires rest == "" || !p(rest[0])
    ensures Span(word + rest, p) == |word|
  {
    if word == "" {
      assert word + rest == rest;
    } else {
      assert (word + rest)[1..] == word[1..] + rest;
      SpanExact(word[1..], rest, p);
    }
  }

  lemma LoopsAfterSpace(env: Env, v: int, s: string)
    ensures AddLoop(env, v, Ws(s)) == AddLoop(env, v, s)
    ensures MulLoop(env, v, Ws(s)) == MulLoop(env, v, s)
  {
    WsTwice(s);
  }

  lemma SpBoundary(n: nat, s: string)
    requires Boundary(s)
    ensures Boundary(Sp(n) + s)
  {
    if n == 0 {
      assert Sp(n) + s == s;
    }
  }

  // The recursion: add-level text goes through the mul and unary levels, and a
  // parenthesised operator comes back to add level.
  function Rank(e: Expr, level: nat): nat {
    if Prec(e) == 0 then if level == 0 then 0 else if level == 2 then 1 else 2
    else if Prec(e) == 1 then if level == 1 then 0 else if level == 0 then 1 else 2
    else if level == 2 then 0 else if level == 1 then 1 else 2
  }

  lemma {:induction false} UnaryReads(env: Env, e: Expr, rest: string)
    requires WellFormed(e) && Boundary(rest)
    ensures ReadUnary(env, Show(e, 2) + rest) == (Value(env, e), rest)
    decreases e, Rank(e, 2)
  {
    match e {
      case Lit(_, _) => LitReads(env, e, rest);
      case Name(_, _, _) => NameReads(env, e, rest);
      case Sign(sp, minus, inner) =>
        UnaryReads(env, inner, rest);
        SignReads(env, e, rest);
      case Bin(_, _, _, _, _, close) =>
        SpBoundary(close, ")" + rest);
        WsSkips(close, ")" + rest);
        AddReads(env, e, Sp(close) + (")" + rest));
        ParenReads(env, e, rest);
    }
  }

  lemma {:induction false} SignReads(env: Env, e: Expr, rest: string)
    requires WellFormed(e) && e.Sign?
    requires ReadUnary(env, Show(e.e, 2) + rest) == (Value(env, e.e), rest)
    ensures ReadUnary(env, Show(e, 2) + rest) == (Value(env, e), rest)
  {
    SignText(e, if e.minus then "-" else "+", rest);
    SignFinish(env, e.sp, e.minus, Show(e.e, 2) + rest);
  }

  lemma SignFinish(env: Env, sp: nat, minus: bool, inner: string)
    ensures var (v, u) := ReadUnary(env, inner);
            ReadUnary(env, Sp(sp) + ((if minus then "-" else "+") + inner)) == (if minus then Wrap(-v) else v, u)
  {
    var t := (if minus then "-" else "+") + inner;
    WsSkips(sp, t);
    SignStep(env, Sp(sp) + t, t, inner);
  }

  lemma SignText(e: Expr, sign: string, rest: string)
    requires WellFormed(e) && e.Sign? && sign == if e.minus then "-" else "+"
    ensures Show(e, 2) + rest == Sp(e.sp) + (sign + (Show(e.e, 2) + rest))
  {
  }

  lemma SignStep(env: Env, s: string, t: string, inner: string)
    requires Ws(s) == Ws(t) && t != "" && t[0] in "+-" && t[1..] == inner
    ensures var (v, u) := ReadUnary(env, inner);
            ReadUnary(env, s) == (if t[0] == '-' then Wrap(-v) else v, u)
  {
    assert Ws(t) == t;
  }

  lemma ParenReads(env: Env, e: Expr, rest: string)
    requires WellFormed(e) && e.Bin?
    requires ReadAdd(env, Body(e) + (Sp(e.close) + (")" + rest))) == AddLoop(env, Value(env, e), Sp(e.close) + (")" + rest))
    ensures ReadUnary(env, Show(e, 2) + rest) == (Value(env, e), rest)
  {
    var inner := Body(e) + (Sp(e.close) + (")" + rest));
    assert Show(e, 2) + rest == Sp(e.open) + ("(" + inner);
    UnarySkips(env, e.open, "(" + inner);
    ParenCloses(env, Value(env, e), e.close, rest);
    ParenStep(env, inner, Value(env, e), rest);
  }

  lemma ParenCloses(env: Env, v: int, close: nat, rest: string)
    ensures AddLoop(env, v, Sp(close) + (")" + rest)) == (v, ")" + rest)
  {
    WsSkips(close, ")" + rest);
  }

  lemma ParenStep(env: Env, inner: string, v: int, rest: string)
    requires ReadAdd(env, inner) == (v, ")" + rest)
    ensures ReadPrimary(env, "(" + inner) == (v, rest)
  {
    assert ("(" + inner)[1..] == inner && (")" + rest)[1..] == rest;
  }

  // Spaces before an operand are skipped.
  lemma UnarySkips(env: Env, n: nat, t: string)
    requires t != "" && t[0] !in " +-"
    ensures ReadUnary(env, Sp(n) + t) == ReadPrimary(env, t)
  {
    WsSkips(n, t);
  }

  lemma LitReads(env: Env, e: Expr, rest: string)
    requires WellFormed(e) && Boundary(rest) && e.Lit?
    ensures ReadUnary(env, Show(e, 2) + rest) == (Value(env, e), rest)
  {
    var t := e.digits + rest;
    assert Show(e, 2) + rest == Sp(e.sp) + t;
    assert IsDigit(e.digits[0]) && t[0] == e.digits[0];
    UnarySkips(env, e.sp, t);
    SpanExact(e.digits, rest, IsDigit);
    assert t[..|e.digits|] == e.digits && t[|e.digits|..] == rest;
    assert Operand(env, t) == (Value(env, e), rest);
  }

  lemma NameReads(env: Env, e: Expr, rest: string)
    requires WellFormed(e) && Boundary(rest) && e.Name?
    ensures ReadUnary(env, Show(e, 2) + rest) == (Value(env, e), rest)
  {
    var mark := if e.dollar then "$" else "";
    assert IsWordChar(e.name[0]);
    NameText(e, mark, rest);
    NamePrimary(env, e.sp, mark, e.name + rest);
    NameOperand(env, e.name, rest);
  }

  lemma NameText(e: Expr, mark: string, rest: string)
    requires WellFormed(e) && e.Name? && mark == if e.dollar then "$" else ""
    ensures Show(e, 2) + rest == Sp(e.sp) + (mark + (e.name + rest))
  {
  }

  lemma NamePrimary(env: Env, sp: nat, mark: string, t: string)
    requires t != "" && IsWordChar(t[0]) && (mark == "" || mark == "$")
    ensures ReadUnary(env, Sp(sp) + (mark + t)) == Operand(env, t)
  {
    var s := mark + t;
    assert if mark == "$" then s[1..] == t else s == t;
    UnarySkips(env, sp, s);
  }

  lemma NameOperand(env: Env, name: string, rest: string)
    requires name != "" && !IsDigit(name[0]) && Boundary(rest)
    requires forall i :: 0 <= i < |name| ==> IsWordChar(name[i])
    ensures Operand(env, name + rest) == (VarValue(env, name), rest)
  {
    var t := name + rest;
    SpanExact(name, rest, IsWordChar);
    assert t[0] == name[0];
    assert t[..|name|] == name && t[|name|..] == rest;
  }

  lemma MulStep(env: Env, v: int, n: nat, op: char, text: string)
    requires op in "*/%"
    ensures var (r, rest) := ReadUnary(env, text);
            MulLoop(env, v, Sp(n) + ([op] + text)) == MulLoop(env, Apply(op, v, r), rest)
  {
    WsSkips(n, [op] + text);
    assert ([op] + text)[1..] == text;
  }

  lemma AddStep(env: Env, v: int, n: nat, op: char, text: string)
    requires op in "+-"
    ensures var (r, rest) := ReadMul(env, text);
            AddLoop(env, v, Sp(n) + ([op] + text)) == AddLoop(env, Apply(op, v, r), rest)
    ensures !Starts(Ws(Sp(n) + ([op] + text)), "*/%")
  {
    WsSkips(n, [op] + text);
    assert ([op] + text)[1..] == text;
  }

  lemma BinText(e: Expr, rest: string)
    requires e.Bin?
    ensures Body(e) + rest == Show(e.l, Prec(e)) + (Sp(e.sp) + ([e.op] + (Show(e.r, Prec(e) + 1) + rest)))
  {
    var l, sp, op, r := Show(e.l, Prec(e)), Sp(e.sp), [e.op], Show(e.r, Prec(e) + 1);
    assert Body(e) == l + sp + op + r;
    assert l + sp + op + r + rest == l + (sp + (op + (r + rest)));
  }

  lemma {:induction false} MulReads(env: Env, e: Expr, rest: string)
    requires WellFormed(e) && Boundary(rest)
    ensures ReadMul(env, Show(e, 1) + rest) == MulLoop(env, Value(env, e), rest)
    decreases e, Rank(e, 1)
  {
    if Prec(e) == 1 {
      var text := Show(e.r, 2) + rest;
      var after := Sp(e.sp) + ([e.op] + text);
      SpBoundary(e.sp, [e.op] + text);
      MulReads(env, e.l, after);
      BinText(e, rest);
      MulStep(env, Value(env, e.l), e.sp, e.op, text);
      UnaryReads(env, e.r, rest);
    } else {
      UnaryReads(env, e, rest);
    }
  }

  lemma {:induction false} AddReads(env: Env, e: Expr, rest: string)
    requires WellFormed(e) && Boundary(rest) && !Starts(Ws(rest), "*/%")
    ensures ReadAdd(env, Show(e, 0) + rest) == AddLoop(env, Value(env, e), rest)
    decreases e, Rank(e, 0)
  {
    if Prec(e) == 0 {
      var text := Show(e.r, 1) + rest;
      var after := Sp(e.sp) + ([e.op] + text);
      SpBoundary(e.sp, [e.op] + text);
      AddStep(env, Value(env, e.l), e.sp, e.op, text);
      AddReads(env, e.l, after);
      BinText(e, rest);
      MulReads(env, e.r, rest);
    } else {
      MulReads(env, e, rest);
    }
    LoopsAfterSpace(env, Value(env, e), rest);
  }

  // Printing and evaluation agree: for every tree, however spaced, the text evaluates to
  // the tree's value.  A stray ")" behind it, which the expansion of $((...)) leaves
  // there, changes nothing.
  lemma EvalOfShow(env: Env, e: Expr, trailing: nat, stray: bool)
    requires WellFormed(e)
    ensures EvalArith(env, Show(e, 0) + Sp(trailing) + (if stray then ")" else "")) == Value(env, e)
  {
    var end := if stray then ")" else "";
    WsSkips(trailing, end);
    SpBoundary(trailing, end);
    AddReads(env, e, Sp(trailing) + end);
    assert Show(e, 0) + Sp(trailing) + end == Show(e, 0) + (Sp(trailing) + end);
  }

  // ---- the evaluator object ----

  class Evaluator {
    const env: Env
    const s: string
    var pos: nat

    ghost predicate Valid()
      reads this
    {
      pos <= |s|
    }

    // What is still to be read.
    function Rest(): string
      reads this
      requires Valid()
    {
      s[pos..]
    }

    constructor (env: Env, s: string)
      ensures Valid() && pos == 0 && this.env == env && this.s == s
    {
      this.env := env;
      this.s := s;
      pos := 0;
    }

    method SkipWs()
      requires Valid()
      modifies this
      ensures Valid() && pos >= old(pos) && Rest() == Ws(old(Rest()))
    {
      while pos < |s| && s[pos] == ' '
        invariant Valid() && pos >= old(pos)
        invariant Ws(Rest()) == Ws(old(Rest()))
      {
        assert Rest()[1..] == s[pos + 1..];
        pos := pos + 1;
      }
    }

    method ParseAdd() returns (v: int)
      requires Valid()
      modifies this
      ensures Valid() && pos >= old(pos)
      ensures (v, Rest()) == ReadAdd(env, old(Rest()))
      decreases |s| - pos, 3
    {
      v := ParseMul();
      var more := true;
      while more
        invariant Valid() && pos >= old(pos)
        invariant (if more then AddLoop(env, v, Rest()) else (v, Rest())) == ReadAdd(env, old(Rest()))
        decreases |s| - pos, more
      {
        v, more := AddTurn(v);
      }
    }

    // One turn of that loop: another operator and its right operand, or the end.
    method AddTurn(v: int) returns (v': int, more: bool)
      requires Valid()
      modifies this
      ensures Valid() && pos >= old(pos) && (more ==> pos > old(pos))
      ensures (if more then AddLoop(env, v', Rest()) else (v', Rest())) == AddLoop(env, v, old(Rest()))
      decreases |s| - pos, 2, 1
    {
      SkipWs();
      v', more := v, pos < |s| && (s[pos] == '+' || s[pos] == '-');
      if more {
        var op := s[pos];
        assert Rest()[1..] == s[pos + 1..];
        pos := pos + 1;
        var r := ParseMul();
        v' := Apply(op, v, r);
      }
    }

    method ParseMul() returns (v: int)
      requires Valid()
      modifies this
      ensures Valid() && pos >= old(pos)
      ensures (v, Rest()) == ReadMul(env, old(Rest()))
      decreases |s| - pos, 2
    {
      v := ParseUnary();
      var more := true;
      while more
        invariant Valid() && pos >= old(pos)
        invariant (if more then MulLoop(env, v, Rest()) else (v, Rest())) == ReadMul(env, old(Rest()))
        decreases |s| - pos, more
      {
        v, more := MulTurn(v);
      }
    }

    // One turn of that loop: another operator and its right operand, or the end.
    method MulTurn(v: int) returns (v': int, more: bool)
      requires Valid()
      modifies this
      ensures Valid() && pos >= old(pos) && (more ==> pos > old(pos))
      ensures (if more then MulLoop(env, v', Rest()) else (v', Rest())) == MulLoop(env, v, old(Rest()))
      decreases |s| - pos, 1, 1
    {
      SkipWs();
      v', more := v, pos < |s| && (s[pos] == '*' || s[pos] == '/' || s[pos] == '%');
      if more {
        var op := s[pos];
        assert Rest()[1..] == s[pos + 1..];
        pos := pos + 1;
        var r := ParseUnary();
        v' := Apply(op, v, r);
      }
    }

    method ParseUnary() returns (v: int)
      requires Valid()
      modifies this
      ensures Valid() && pos >= old(pos)
      ensures (v, Rest()) == ReadUnary(env, old(Rest()))
      decreases |s| - pos, 1, 1
    {
      SkipWs();
      WsTwice(old(Rest()));
      if pos < |s| && (s[pos] == '-' || s[pos] == '+') {
        v := ParseSign();
      } else {
        v := ParsePrimary();
      }
    }

    method ParseSign() returns (v: int)
      requires Valid() && pos < |s| && (s[pos] == '-' || s[pos] == '+')
      modifies this
      ensures Valid() && pos >= old(pos)
      ensures (v, Rest()) == ReadUnary(env, old(Rest()))
      decreases |s| - pos, 1, 0
    {
      var minus := s[pos] == '-';
      assert Rest()[1..] == s[pos + 1..];
      SignStep(env, Rest(), Rest(), s[pos + 1..]);
      pos := pos + 1;
      v := ParseUnary();
      if minus {
        v := Wrap(-v);
      }
    }

    method ParsePrimary() returns (v: int)
      requires Valid()
      modifies this
      ensures Valid() && pos >= old(pos)
      ensures (v, Rest()) == ReadPrimary(env, old(Rest()))
      decreases |s| - pos, 0
    {
      SkipWs();
      assert pos < |s| ==> Rest()[1..] == s[pos + 1..];
      if pos < |s| && s[pos] == '(' {
        pos := pos + 1;
        v := ParseInside();
        return;
      }
      if pos < |s| && s[pos] == '$' {
        pos := pos + 1;
      }
      v := ReadOperand();
    }

    // Behind an opening parenthesis; a missing closing one is no error.
    method ParseInside() returns (v: int)
      requires Valid()
      modifies this
      ensures Valid() && pos >= old(pos)
      ensures var (value, u) := ReadAdd(env, old(Rest()));
              v == value && Rest() == (if Starts(Ws(u), ")") then Ws(u)[1..] else Ws(u))
      decreases |s| - pos, 4
    {
      v := ParseAdd();
      SkipWs();
      assert pos < |s| ==> Rest()[1..] == s[pos + 1..];
      if pos < |s| && s[pos] == ')' {
        pos := pos + 1;
      }
    }

    method SkipDigits()
      requires Valid()
      modifies this
      ensures Valid() && pos == old(pos) + Span(old(Rest()), IsDigit)
    {
      while pos < |s| && IsDigit(s[pos])
        invariant old(pos) <= pos <= |s|
        invariant pos + Span(Rest(), IsDigit) == old(pos) + Span(old(Rest()), IsDigit)
      {
        assert Rest()[1..] == s[pos + 1..];
        pos := pos + 1;
      }
    }

    method SkipWord()
      requires Valid()
      modifies this
      ensures Valid() && pos == old(pos) + Span(old(Rest()), IsWordChar)
    {
      while pos < |s| && IsWordChar(s[pos])
        invariant old(pos) <= pos <= |s|
        invariant pos + Span(Rest(), IsWordChar) == old(pos) + Span(old(Rest()), IsWordChar)
      {
        assert Rest()[1..] == s[pos + 1..];
        pos := pos + 1;
      }
    }

    // Digits, or else a name.
    method ReadOperand() returns (v: int)
      requires Valid()
      modifies this
      ensures Valid() && pos >= old(pos)
      ensures (v, Rest()) == Operand(env, old(Rest()))
    {
      var start := pos;
      SpanHolds(Rest(), IsDigit);
      SkipDigits();
      assert s[start..][..pos - start] == s[start..pos] && s[start..][pos - start..] == s[pos..];
      if pos > start {
        return AtoiClamped(s[start..pos]);
      }
      SkipWord();
      assert s[start..][..pos - start] == s[start..pos] && s[start..][pos - start..] == s[pos..];
      if pos > start {
        return VarValue(env, s[start..pos]);
      }
      return 0;
    }
  }
}
