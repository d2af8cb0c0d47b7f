// The range index: binary search over sorted spans, and the span of a CIDR prefix.
module Geo {
  import opened Basics

  // An IPv4 address as a host integer.
  type Address = v: int | 0 <= v < 0x1_0000_0000

  // One inclusive span of addresses.  Country and ASN databases share the search.
  datatype Range<+T> = Range(start: Address, end: Address, info: T)

  predicate Within<T>(r: Range<T>, v: Address) {
    r.start <= v <= r.end
  }

  ghost predicate Sorted<T>(ranges: seq<Range<T>>) {
    forall i, j :: 0 <= i < j < |ranges| ==> ranges[i].start <= ranges[j].start
  }

  // Spans as the loaders accept them: a row whose end precedes its start is dropped.
  ghost predicate Proper<T>(ranges: seq<Range<T>>) {
    forall i :: 0 <= i < |ranges| ==> ranges[i].start <= ranges[i].end
  }

  ghost predicate Disjoint<T>(ranges: seq<Range<T>>) {
    forall i, j :: 0 <= i < j < |ranges| ==> ranges[i].end < ranges[j].start
  }

  // The reference: the first span that contains the address.
  function Scan<T>(ranges: seq<Range<T>>, v: Address): Option<T> {
    if ranges == [] then None
    else if Within(ranges[0], v) then Some(ranges[0].info)
    else Scan(ranges[1..], v)
  }

  // Least index at which `start > v`, as sort.Search finds it.
  method SearchAbove<T>(ranges: seq<Range<T>>, v: Address) returns (i: nat)
    requires Sorted(ranges)
    ensures i <= |ranges|
    ensures forall k :: 0 <= k < i ==> ranges[k].start <= v
    ensures forall k :: i <= k < |ranges| ==> ranges[k].start > v
  {
    i := 0;
    var j := |ranges|;
    while i < j
      invariant 0 <= i <= j <= |ranges|
      invariant forall k :: 0 <= k < i ==> ranges[k].start <= v
      invariant forall k :: j <= k < |ranges| ==> ranges[k].start > v
    {
      var h := (i + j) / 2;
      if !(ranges[h].start > v) {
        i := h + 1;
      } else {
        j := h;
      }
    }
  }

  // The last span that starts at or before `v`, if it reaches as far as `v`.
  function LastStart<T>(ranges: seq<Range<T>>, v: Address): Option<T> {
    if ranges == [] then None
    else
      var last := ranges[|ranges| - 1];
      if last.start > v then LastStart(ranges[..|ranges| - 1], v)
      else if v <= last.end then Some(last.info)
      else None
  }

  // Any sorted database: the search answers from the last span starting at or before v.
  // A country record is never blank, so the source's test for one changes nothing.
  method Find<T>(ranges: seq<Range<T>>, v: Address) returns (r: Option<T>)
    requires Sorted(ranges)
    ensures r == LastStart(ranges, v)
    ensures Disjoint(ranges) ==> r == Scan(ranges, v)
  {
    var i := SearchAbove(ranges, v);
    LastStartAt(ranges, v, i);
    if Disjoint(ranges) {
      SearchIsScan(ranges, v);
    }
    if i == 0 {
      return None;
    }
    if v <= ranges[i - 1].end {
      return Some(ranges[i - 1].info);
    }
    return None;
  }

  lemma {:induction false} LastStartAt<T>(ranges: seq<Range<T>>, v: Address, i: nat)
    requires i <= |ranges|
    requires forall k :: 0 <= k < i ==> ranges[k].start <= v
    requires forall k :: i <= k < |ranges| ==> ranges[k].start > v
    ensures LastStart(ranges, v)
         == if i > 0 && v <= ranges[i - 1].end then Some(ranges[i - 1].info) else None
  {
    if i < |ranges| {
      LastStartAt(ranges[..|ranges| - 1], v, i);
    }
  }

  // Disjoint spans: binary search and linear scan agree on every address.
  lemma {:induction false} SearchIsScan<T>(ranges: seq<Range<T>>, v: Address)
    requires Disjoint(ranges)
    ensures LastStart(ranges, v) == Scan(ranges, v)
  {
    if ranges != [] {
      var front, last := ranges[..|ranges| - 1], ranges[|ranges| - 1];
      assert ranges == front + [last];
      ScanAppend(front, last, v);
      if last.start > v {
        SearchIsScan(front, v);
      } else {
        forall k | 0 <= k < |front| ensures !Within(front[k], v) {
          assert ranges[k].end < last.start;
        }
        ScanMisses(front, v);
      }
    }
  }

  lemma {:induction false} ScanAppend<T>(front: seq<Range<T>>, last: Range<T>, v: Address)
    ensures Scan(front + [last], v)
         == if Scan(front, v).Some? then Scan(front, v) else if Within(last, v) then Some(last.info) else None
  {
    if front == [] {
      assert front + [last] == [last];
      assert Scan([last], v) == if Within(last, v) then Some(last.info) else Scan([], v);
    } else {
      assert (front + [last])[1..] == front[1..] + [last];
      ScanAppend(front[1..], last, v);
    }
  }

  lemma {:induction false} ScanMisses<T>(ranges: seq<Range<T>>, v: Address)
    ensures (forall k :: 0 <= k < |ranges| ==> !Within(ranges[k], v)) <==> Scan(ranges, v).None?
  {
    if ranges != [] {
      ScanMisses(ranges[1..], v);
      if Scan(ranges, v).None? {
        forall k | 0 <= k < |ranges| ensures !Within(ranges[k], v) {
          assert k > 0 ==> ranges[k] == ranges[1..][k - 1];
        }
      } else if !Within(ranges[0], v) {
        var k :| 0 <= k < |ranges[1..]| && Within(ranges[1..][k], v);
        assert ranges[k + 1] == ranges[1..][k];
      }
    }
  }

  // A later span that ends before an earlier one, leaving part of it in the open.
  ghost predicate Shadowed<T>(ranges: seq<Range<T>>, i: int, j: int) {
    && 0 <= i < j < |ranges|
    && ranges[j].end < ranges[i].end
    && (forall k :: j < k < |ranges| ==> ranges[j].end + 1 < ranges[k].start)
  }

  // Loading sorts the spans but does not reject overlaps.  The search still finds a span
  // for every covered address exactly when no span sticks out from under a later one.
  lemma CoverageExactly<T>(ranges: seq<Range<T>>)
    requires Sorted(ranges) && Proper(ranges)
    ensures (forall v: Address :: LastStart(ranges, v).Some? <==> Scan(ranges, v).Some?)
       <==> !exists i, j :: Shadowed(ranges, i, j)
  {
    if i, j :| Shadowed(ranges, i, j) {
      var v: Address := ranges[j].end + 1;
      assert ranges[j].end < v <= ranges[i].end && Within(ranges[i], v);
      LastStartAt(ranges, v, j + 1);
      ScanMisses(ranges, v);
      assert LastStart(ranges, v).None? && Scan(ranges, v).Some?;
    } else {
      forall v: Address ensures LastStart(ranges, v).Some? <==> Scan(ranges, v).Some? {
        FoundIsCovered(ranges, v);
        if LastStart(ranges, v).None? && Scan(ranges, v).Some? {
          MissedIsShadowed(ranges, v);
        }
      }
    }
  }

  lemma FoundIsCovered<T>(ranges: seq<Range<T>>, v: Address)
    requires Sorted(ranges)
    ensures LastStart(ranges, v).Some? ==> Scan(ranges, v).Some?
  {
    LastStartAt(ranges, v, SearchAboveAt(ranges, v));
    ScanMisses(ranges, v);
  }

  lemma MissedIsShadowed<T>(ranges: seq<Range<T>>, v: Address)
    requires Sorted(ranges) && Proper(ranges)
    requires LastStart(ranges, v).None? && Scan(ranges, v).Some?
    ensures exists i, j :: Shadowed(ranges, i, j)
  {
    var n := SearchAboveAt(ranges, v);
    LastStartAt(ranges, v, n);
    ScanMisses(ranges, v);
    var i :| 0 <= i < |ranges| && Within(ranges[i], v);
    assert Shadowed(ranges, i, n - 1);
  }

  ghost function SearchAboveAt<T>(ranges: seq<Range<T>>, v: Address): (i: nat)
    requires Sorted(ranges)
    ensures i <= |ranges|
    ensures forall k :: 0 <= k < i ==> ranges[k].start <= v
    ensures forall k :: i <= k < |ranges| ==> ranges[k].start > v
  {
    if ranges == [] || ranges[|ranges| - 1].start <= v then |ranges|
    else SearchAboveAt(ranges[..|ranges| - 1], v)
  }

  // ---- CIDR ----

  // A word as its bits, most significant first.
  type Bits = seq<bool>

  const WIDTH := 32

  function And(a: Bits, b: Bits): Bits
    requires |a| == |b|
  {
    seq(|a|, i requires 0 <= i < |a| => a[i] && b[i])
  }

  function Or(a: Bits, b: Bits): Bits
    requires |a| == |b|
  {
    seq(|a|, i requires 0 <= i < |a| => a[i] || b[i])
  }

  function Not(a: Bits): Bits {
    seq(|a|, i requires 0 <= i < |a| => !a[i])
  }

  function ShiftRight(a: Bits, n: nat): Bits {
    seq(|a|, i requires 0 <= i < |a| => i >= n && a[i - n])
  }

  function Filled(n: nat, bit: bool): Bits {
    seq(n, i => bit)
  }

  function Pow2(n: nat): (p: nat)
    ensures p > 0
  {
    if n == 0 then 1 else 2 * Pow2(n - 1)
  }

  function Value(bits: Bits): (v: nat)
    ensures v < Pow2(|bits|)
  {
    if bits == [] then 0 else (if bits[0] then Pow2(|bits| - 1) else 0) + Value(bits[1..])
  }

  // The bits a prefix of the given length leaves free.
  function HostMask(length: nat): Bits {
    ShiftRight(Filled(WIDTH, true), length)
  }

  // First and last address of a CIDR block.
  function CidrSpan(addr: Bits, length: nat): (Bits, Bits)
    requires |addr| == WIDTH
  {
    var lo := And(addr, Not(HostMask(length)));
    (lo, Or(lo, HostMask(length)))
  }

  lemma {:induction false} FilledValue(n: nat)
    ensures Value(Filled(n, false)) == 0 && Value(Filled(n, true)) == Pow2(n) - 1
  {
    if n > 0 {
      FilledValue(n - 1);
      assert Filled(n, false)[1..] == Filled(n - 1, false);
      assert Filled(n, true)[1..] == Filled(n - 1, true);
    }
  }

  lemma ValueCons(bit: bool, rest: Bits)
    ensures Value([bit] + rest) == Value(rest) + if bit then Pow2(|rest|) else 0
  {
    assert ([bit] + rest)[1..] == rest;
  }

  // Numbers of the same length with the same first bit compare by the rest; others by
  // that bit.
  lemma {:induction false} SameFirstBit(a: bool, b: bool, lo: Bits, v: Bits, hi: Bits)
    requires |lo| == |v| == |hi|
    ensures Value([a] + lo) <= Value([b] + v) <= Value([a] + hi) && a == b
       <==> Value(lo) <= Value(v) <= Value(hi) && a == b
    ensures Value([a] + lo) <= Value([b] + v) <= Value([a] + hi) ==> a == b
  {
    ValueCons(a, lo);
    ValueCons(b, v);
    ValueCons(a, hi);
  }

  function Block(addr: Bits, n: nat, bit: bool): Bits
    requires n <= |addr|
  {
    addr[..n] + Filled(|addr| - n, bit)
  }

  lemma BlockCons(addr: Bits, n: nat, bit: bool)
    requires 0 < n <= |addr|
    ensures Block(addr, n, bit) == [addr[0]] + Block(addr[1..], n - 1, bit)
  {
    assert addr[..n] == [addr[0]] + addr[1..][..n - 1];
  }

  lemma {:induction false} PrefixBlock(addr: Bits, v: Bits, n: nat)
    requires n <= |addr| == |v|
    ensures Value(Block(addr, n, false)) <= Value(v) <= Value(Block(addr, n, true)) <==> v[..n] == addr[..n]
  {
    if n == 0 {
      assert Block(addr, n, false) == Filled(|addr|, false) && Block(addr, n, true) == Filled(|addr|, true);
      FilledValue(|addr|);
    } else {
      PrefixBlock(addr[1..], v[1..], n - 1);
      BlockCons(addr, n, false);
      BlockCons(addr, n, true);
      SameFirstBit(addr[0], v[0], Block(addr[1..], n - 1, false), v[1..], Block(addr[1..], n - 1, true));
      assert v == [v[0]] + v[1..];
      SamePrefix(addr, v, n);
    }
  }

  lemma SamePrefix(addr: Bits, v: Bits, n: nat)
    requires 0 < n <= |addr| == |v|
    ensures v[..n] == addr[..n] <==> v[0] == addr[0] && v[1..][..n - 1] == addr[1..][..n - 1]
  {
    assert addr[..n] == [addr[0]] + addr[1..][..n - 1] && v[..n] == [v[0]] + v[1..][..n - 1];
  }

  lemma MaskedShape(v: Bits, length: nat)
    requires |v| == WIDTH && length <= WIDTH
    ensures And(v, Not(HostMask(length))) == Block(v, length, false)
    ensures Or(And(v, Not(HostMask(length))), HostMask(length)) == Block(v, length, true)
  {
    forall i | 0 <= i < WIDTH ensures HostMask(length)[i] == (i >= length) {}
  }

  // The span of a prefix holds exactly the addresses that agree with it on the prefix
  // bits, for every length from 0 to 32.
  lemma CidrIsPrefix(addr: Bits, length: nat, v: Bits)
    requires |addr| == |v| == WIDTH && length <= WIDTH
    ensures var (lo, hi) := CidrSpan(addr, length);
            && Value(lo) <= Value(hi)
            && (Value(lo) <= Value(v) <= Value(hi) <==> v[..length] == addr[..length])
            && (v[..length] == addr[..length] <==> And(v, Not(HostMask(length))) == lo)
  {
    MaskedShape(addr, length);
    MaskedShape(v, length);
    PrefixBlock(addr, v, length);
    PrefixBlock(addr, addr, length);
    var lo, masked := And(addr, Not(HostMask(length))), And(v, Not(HostMask(length)));
    if masked == lo {
      assert v[..length] == masked[..length] == lo[..length] == addr[..length];
    }
  }

  // Four address bytes, most significant first.
  type Octet = b: int | 0 <= b < 256

  function BeUint32(b0: Octet, b1: Octet, b2: Octet, b3: Octet): Address {
    b0 * 0x100_0000 + b1 * 0x1_0000 + b2 * 0x100 + b3
  }

  // ---- bits and integers ----

  function BitsOf(v: nat, n: nat): (bits: Bits)
    ensures |bits| == n
  {
    if n == 0 then [] else BitsOf(v / 2, n - 1) + [v % 2 == 1]
  }

  lemma {:induction false} ValueSnoc(bits: Bits, last: bool)
    ensures Value(bits + [last]) == 2 * Value(bits) + if last then 1 else 0
  {
    if bits != [] {
      assert (bits + [last])[1..] == bits[1..] + [last];
      ValueSnoc(bits[1..], last);
    }
  }

  function Shl(v: nat, n: nat): nat {
    if n == 0 then v else 2 * Shl(v, n - 1)
  }

  function Shr(v: nat, n: nat): nat {
    if n == 0 then v else Shr(v / 2, n - 1)
  }

  // Writing `v` behind some bits shifts them by as many places.
  lemma {:induction false} ValueShift(bits: Bits, v: nat, n: nat)
    requires v < Pow2(n)
    ensures Value(bits + BitsOf(v, n)) == Shl(Value(bits), n) + v
  {
    if n == 0 {
      assert bits + [] == bits;
    } else {
      var front := bits + BitsOf(v / 2, n - 1);
      assert bits + BitsOf(v, n) == front + [v % 2 == 1];
      ValueSnoc(front, v % 2 == 1);
      ValueShift(bits, v / 2, n - 1);
    }
  }

  lemma {:induction false} ShlZero(n: nat)
    ensures Shl(0, n) == 0
  {
    if n > 0 {
      ShlZero(n - 1);
    }
  }

  lemma ValueOfBits(v: nat, n: nat)
    requires v < Pow2(n)
    ensures Value(BitsOf(v, n)) == v
  {
    ValueShift([], v, n);
    ShlZero(n);
    assert [] + BitsOf(v, n) == BitsOf(v, n);
  }

  lemma OctetShift(bits: Bits, b: Octet)
    ensures Value(bits + BitsOf(b, 8)) == 256 * Value(bits) + b
  {
    var v := Value(bits);
    assert Pow2(2) == 4 && Pow2(4) == 16 && Pow2(6) == 64;
    assert Shl(v, 1) == 2 * v && Shl(v, 2) == 4 * v && Shl(v, 3) == 8 * v && Shl(v, 4) == 16 * v;
    assert Shl(v, 5) == 32 * v && Shl(v, 6) == 64 * v && Shl(v, 7) == 128 * v;
    ValueShift(bits, b, 8);
  }

  // Packing four octets reads their bits, one octet after the other, as one number.
  lemma PackedIsValue(b0: Octet, b1: Octet, b2: Octet, b3: Octet)
    ensures Value(BitsOf(b0, 8) + BitsOf(b1, 8) + BitsOf(b2, 8) + BitsOf(b3, 8)) == BeUint32(b0, b1, b2, b3)
  {
    OctetShift([], b0);
    assert [] + BitsOf(b0, 8) == BitsOf(b0, 8);
    OctetShift(BitsOf(b0, 8), b1);
    OctetShift(BitsOf(b0, 8) + BitsOf(b1, 8), b2);
    OctetShift(BitsOf(b0, 8) + BitsOf(b1, 8) + BitsOf(b2, 8), b3);
  }

  // The first k of n bits are what is left when the others are shifted out.
  lemma {:induction false} PrefixIsShifted(v: nat, n: nat, k: nat)
    requires k <= n
    ensures BitsOf(v, n)[..k] == BitsOf(Shr(v, n - k), k)
  {
    if k < n {
      PrefixIsShifted(v / 2, n - 1, k);
      assert BitsOf(v, n)[..k] == BitsOf(v / 2, n - 1)[..k];
    }
  }

  lemma {:induction false} ShiftedFits(v: nat, n: nat, k: nat)
    requires v < Pow2(n + k)
    ensures Shr(v, n) < Pow2(k)
  {
    if n > 0 {
      ShiftedFits(v / 2, n - 1, k);
    }
  }

  // In integers: the span of a prefix holds exactly the addresses that are the same number
  // once the host bits are shifted out.
  lemma CidrIsBlock(a: nat, length: nat, v: nat)
    requires length <= WIDTH && a < Pow2(WIDTH) && v < Pow2(WIDTH)
    ensures var (lo, hi) := CidrSpan(BitsOf(a, WIDTH), length);
            Value(lo) <= v <= Value(hi) <==> Shr(v, WIDTH - length) == Shr(a, WIDTH - length)
  {
    CidrIsPrefix(BitsOf(a, WIDTH), length, BitsOf(v, WIDTH));
    ValueOfBits(v, WIDTH);
    PrefixNumber(a, length);
    PrefixNumber(v, length);
  }

  lemma PrefixNumber(v: nat, length: nat)
    requires length <= WIDTH && v < Pow2(WIDTH)
    ensures var q := Shr(v, WIDTH - length);
            BitsOf(v, WIDTH)[..length] == BitsOf(q, length) && Value(BitsOf(q, length)) == q
  {
    PrefixIsShifted(v, WIDTH, length);
    ShiftedFits(v, WIDTH - length, length);
    ValueOfBits(Shr(v, WIDTH - length), length);
  }
}
