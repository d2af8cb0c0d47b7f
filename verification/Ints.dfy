// Go's 64-bit integers and their decimal text.
module Ints {
  import opened Basics

  const TWO_63 := 0x8000_0000_0000_0000
  const TWO_64 := 0x1_0000_0000_0000_0000

  predicate IsInt64(n: int) {
    -TWO_63 <= n < TWO_63
  }

  // Two's complement wrap-around.
  function Wrap(n: int): (w: int)
    ensures IsInt64(w)
    ensures IsInt64(n) ==> w == n
  {
    (n + TWO_63) % TWO_64 - TWO_63
  }

  // Division truncates toward zero.
  function Quo(a: int, b: int): int
    requires b != 0
  {
    if a >= 0 then
      if b > 0 then a / b else -(a / -b)
    else
      if b > 0 then -(-a / b) else -a / -b
  }

  function Rem(a: int, b: int): int
    requires b != 0
  {
    a - b * Quo(a, b)
  }

  // Wrapping moves a number by whole turns of 64 bits.
  lemma WrapTurns(n: int)
    ensures IsInt64(Wrap(n)) && (n - Wrap(n)) % TWO_64 == 0
  {
    var turns := (n + TWO_63) / TWO_64;
    assert n - Wrap(n) == turns * TWO_64;
  }

  // The quotient and the remainder put the dividend together again, and the remainder is
  // smaller than the divisor and on the dividend's side of zero.
  lemma QuoRem(a: int, b: int)
    requires b != 0
    ensures a == b * Quo(a, b) + Rem(a, b)
    ensures Abs(Rem(a, b)) < Abs(b)
    ensures (a >= 0 ==> Rem(a, b) >= 0) && (a <= 0 ==> Rem(a, b) <= 0)
  {
    var x, y := Abs(a), Abs(b);
    assert x == y * (x / y) + x % y;
    SignedProduct(y, x / y);
  }

  lemma SignedProduct(y: int, q: int)
    ensures y * -q == -(y * q) && -y * q == -(y * q) && -y * -q == y * q
  {
  }

  function Abs(n: int): (m: int)
    ensures m >= 0
  {
    if n < 0 then -n else n
  }

  lemma NatQuotient(x: int, y: int, q: int, m: int)
    requires x == y * q + m && y > 0 && q >= 0 && m >= 0
    ensures q <= x && (y >= 2 ==> 2 * q <= x)
  {
    assert y * q == q + (y - 1) * q;
    assert (y - 1) * q >= 0;
    if y >= 2 {
      assert y * q == 2 * q + (y - 2) * q && (y - 2) * q >= 0;
    }
  }

  // A quotient is no larger than its dividend, and at most half of it but for divisors
  // one and minus one.
  lemma QuoShrinks(a: int, b: int)
    requires b != 0
    ensures Abs(Quo(a, b)) <= Abs(a)
    ensures Abs(b) >= 2 ==> 2 * Abs(Quo(a, b)) <= Abs(a)
  {
    var x, y := Abs(a), Abs(b);
    NatQuotient(x, y, x / y, x % y);
  }

  predicate IsDigit(c: char) {
    '0' <= c <= '9'
  }

  predicate AllDigits(s: string) {
    forall i :: 0 <= i < |s| ==> IsDigit(s[i])
  }

  function Decimal(s: string): nat
    requires AllDigits(s)
  {
    if s == "" then 0 else 10 * Decimal(s[..|s| - 1]) + (s[|s| - 1] as int - '0' as int)
  }

  // strconv.Atoi with its error dropped, on digits: too large reads as the largest.
  function AtoiClamped(s: string): (n: int)
    requires AllDigits(s)
    ensures IsInt64(n)
  {
    if Decimal(s) >= TWO_63 then TWO_63 - 1 else Decimal(s)
  }

  // strconv.Atoi: an optional sign, then digits, within range.
  function Atoi(s: string): (n: Option<int>)
    ensures n.Some? ==> IsInt64(n.value)
  {
    var signed := s != "" && (s[0] == '-' || s[0] == '+');
    var digits := if signed then s[1..] else s;
    if digits == "" || !AllDigits(digits) then None
    else
      var d: int := Decimal(digits);
      var n := if signed && s[0] == '-' then -d else d;
      if IsInt64(n) then Some(n) else None
  }

  function Digits(n: nat): (s: string)
    ensures AllDigits(s) && s != ""
  {
    var last := ['0' + (n % 10) as char];
    if n < 10 then last else Digits(n / 10) + last
  }

  function Itoa(n: int): string {
    if n < 0 then "-" + Digits(-n) else Digits(n)
  }

  lemma {:induction false} DecimalOfDigits(n: nat)
    ensures Decimal(Digits(n)) == n
  {
    var s := Digits(n);
    if n < 10 {
      assert s[..|s| - 1] == "";
    } else {
      DecimalOfDigits(n / 10);
      assert s[..|s| - 1] == Digits(n / 10);
    }
  }

  // Printing a number and reading it back gives the number.
  lemma AtoiOfItoa(n: int)
    requires IsInt64(n)
    ensures Atoi(Itoa(n)) == Some(n)
  {
    if n < 0 {
      DecimalOfDigits(-n);
      assert Itoa(n)[1..] == Digits(-n);
    } else {
      DecimalOfDigits(n);
      assert IsDigit(Itoa(n)[0]);
    }
  }

  // Too large a numeral reads as the largest number there is below it.
  lemma ClampIsNearest(s: string)
    requires AllDigits(s)
    ensures AtoiClamped(s) <= Decimal(s)
    ensures forall n :: IsInt64(n) && n <= Decimal(s) ==> n <= AtoiClamped(s)
  {
  }

  // Digits in the usual order, and zeros in front count for nothing.
  lemma {:induction false} ZerosInFront(s: string)
    requires AllDigits(s)
    ensures AllDigits("0" + s) && Decimal("0" + s) == Decimal(s)
    ensures Itoa(2841) == "2841"
  {
    var z := "0" + s;
    if s != "" {
      ZerosInFront(s[..|s| - 1]);
      assert z[..|z| - 1] == "0" + s[..|s| - 1];
    }
    assert Digits(28) == "28" && Digits(284) == "284";
  }

  function Pow10(k: nat): nat {
    if k == 0 then 1 else 10 * Pow10(k - 1)
  }

  lemma {:induction false} DigitsLength(n: nat, k: nat)
    requires n < Pow10(k) && k > 0
    ensures |Digits(n)| <= k
  {
    if n >= 10 {
      DigitsLength(n / 10, k - 1);
    }
  }

  // No 64-bit number takes more than twenty characters.
  lemma ItoaLength(n: int)
    requires IsInt64(n)
    ensures 1 <= |Itoa(n)| <= 20
  {
    assert Pow10(5) == 100000;
    assert Pow10(10) == 10000000000;
    assert Pow10(15) == 1000000000000000;
    assert Pow10(19) == 10000000000000000000;
    DigitsLength(if n < 0 then -n else n, 19);
  }
}
