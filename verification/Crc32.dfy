/** The CRC-32 of Checksum.cpp: a 256-entry table and a loop over bytes,
    proved equal to the register of section 8 of RFC 1952 fed one bit at a time,
    and shown to detect every error burst of at most 32 bits. */
module Crc32 {

  const POLY: bv32 := 0xEDB88320
  const ONES: bv32 := 0xFFFF_FFFF

  // ------------------------------------------------ reference: one bit at a time

  // The word operations have names so that the inductive proofs can hide them.

  function Xor(a: bv32, b: bv32): bv32 { a ^ b }

  predicate Odd(c: bv32) { c & 1 == 1 }

  function Half(c: bv32): bv32 { c >> 1 }

  function Twice(c: bv32): bv32 { c << 1 }

  predicate TopClear(c: bv32) { c & 0x8000_0000 == 0 }

  function BitWord(b: bool): bv32 { if b then 1 else 0 }

  /** One clock of the reflected register. */
  function Clock(c: bv32): bv32 {
    if Odd(c) then Xor(POLY, Half(c)) else Half(c)
  }

  function Clocks(c: bv32, n: nat): bv32
    decreases n
  {
    if n == 0 then c else Clocks(Clock(c), n - 1)
  }

  /** The register after shifting in `bits`, first bit first. */
  function Feed(c: bv32, bits: seq<bool>): bv32
    decreases |bits|
  {
    if bits == [] then c else Feed(Clock(Xor(c, BitWord(bits[0]))), bits[1..])
  }

  /** The n low bits of a word, least significant first. */
  function Bits(w: bv32, n: nat): (bits: seq<bool>)
    ensures |bits| == n
    decreases n
  {
    if n == 0 then [] else [Odd(w)] + Bits(Half(w), n - 1)
  }

  function Widen(b: bv8): bv32 { b as bv32 }

  function ByteBits(b: bv8): (bits: seq<bool>)
    ensures |bits| == 8
  {
    Bits(Widen(b), 8)
  }

  function MessageBits(m: seq<bv8>): (bits: seq<bool>)
    ensures |bits| == 8 * |m|
  {
    if m == [] then [] else MessageBits(m[..|m| - 1]) + ByteBits(m[|m| - 1])
  }

  /** The register after a whole message, defined on its bits and without a table. */
  function Register(m: seq<bv8>): bv32 { Feed(ONES, MessageBits(m)) }

  function BitwiseCrc(m: seq<bv8>): bv32 { Xor(Register(m), ONES) }

  lemma {:induction false} FeedAppend(c: bv32, a: seq<bool>, b: seq<bool>)
    ensures Feed(c, a + b) == Feed(Feed(c, a), b)
    decreases |a|
  {
    hide Clock;
    hide Xor;
    if a == [] {
      assert a + b == b;
    } else {
      assert (a + b)[1..] == a[1..] + b;
      FeedAppend(Clock(Xor(c, BitWord(a[0]))), a[1..], b);
    }
  }

  // ------------------------------------------------ the register is linear over xor and injective

  lemma HalfOfXor(a: bv32, b: bv32)
    ensures Half(Xor(a, b)) == Xor(Half(a), Half(b))
    ensures Odd(Xor(a, b)) == (Odd(a) != Odd(b))
  {}

  lemma XorAlgebra(p: bv32, x: bv32, y: bv32)
    ensures Xor(Xor(p, x), Xor(p, y)) == Xor(x, y)
    ensures Xor(p, Xor(x, y)) == Xor(Xor(p, x), y) == Xor(x, Xor(p, y))
  {}

  lemma XorZero(x: bv32, y: bv32)
    ensures Xor(x, 0) == x && Xor(0, x) == x && Xor(x, x) == 0
    ensures Xor(x, y) == 0 ==> x == y
  {}

  lemma ClockLinear(a: bv32, b: bv32)
    ensures Clock(Xor(a, b)) == Xor(Clock(a), Clock(b))
  {
    hide Xor;
    hide Half;
    hide Odd;
    HalfOfXor(a, b);
    XorAlgebra(POLY, Half(a), Half(b));
  }

  lemma {:induction false} ClocksLinear(a: bv32, b: bv32, n: nat)
    ensures Clocks(Xor(a, b), n) == Xor(Clocks(a, n), Clocks(b, n))
    decreases n
  {
    hide Xor;
    hide Clock;
    if n > 0 {
      ClockLinear(a, b);
      ClocksLinear(Clock(a), Clock(b), n - 1);
    }
  }

  lemma ClockInjective(x: bv32, y: bv32)
    requires Clock(x) == Clock(y)
    ensures x == y
  {}

  lemma {:induction false} ClocksInjective(x: bv32, y: bv32, n: nat)
    requires Clocks(x, n) == Clocks(y, n)
    ensures x == y
    decreases n
  {
    hide Clock;
    if n > 0 {
      ClocksInjective(Clock(x), Clock(y), n - 1);
      ClockInjective(x, y);
    }
  }

  /** A word with a clear top bit, shifted up, is what one clock brings back. */
  lemma ClockUndoesTwice(w: bv32)
    requires TopClear(w)
    ensures Clock(Twice(w)) == w
  {}

  // ------------------------------------------------ at most 32 bits fed as one word

  /** The word whose bit k is d[k]. */
  function Word(d: seq<bool>): bv32 {
    if d == [] then 0 else Xor(BitWord(d[0]), Twice(Word(d[1..])))
  }

  predicate Inside(w: bv32, mask: bv32) { w & !mask == 0 }

  function Grow(mask: bv32): bv32 { (mask << 1) | 1 }

  /** The mask of the n low bits. */
  function Low(n: nat): bv32 { if n == 0 then 0 else Grow(Low(n - 1)) }

  lemma InsideStep(w: bv32, mask: bv32, b: bool)
    requires Inside(w, mask)
    ensures Inside(Xor(BitWord(b), Twice(w)), Grow(mask))
    ensures Inside(Grow(w), Grow(mask))
  {}

  lemma {:induction false} WordInsideLow(d: seq<bool>)
    ensures Inside(Word(d), Low(|d|))
  {
    if d != [] {
      hide Xor;
      hide Twice;
      hide Grow;
      hide Inside;
      WordInsideLow(d[1..]);
      InsideStep(Word(d[1..]), Low(|d| - 1), d[0]);
    }
  }

  lemma {:induction false} LowMonotone(n: nat, m: nat)
    requires n <= m
    ensures Inside(Low(n), Low(m))
  {
    if n > 0 {
      hide Grow;
      hide Inside;
      LowMonotone(n - 1, m - 1);
      InsideStep(Low(n - 1), Low(m - 1), true);
    }
  }

  lemma GrowFour(l: bv32)
    ensures Grow(Grow(Grow(Grow(l)))) == (l << 4) | 0xF
  {}

  lemma LowByFour(n: nat)
    ensures Low(n + 4) == (Low(n) << 4) | 0xF
  {
    hide Grow;
    GrowFour(Low(n));
    assert Low(n + 2) == Grow(Grow(Low(n)));
  }

  lemma Low31()
    ensures Low(31) == 0x7FFF_FFFF
  {
    LowByFour(0);
    LowByFour(4);
    LowByFour(8);
    LowByFour(12);
    LowByFour(16);
    LowByFour(20);
    LowByFour(24);
    assert Low(29) == 0x1FFF_FFFF;
    assert Low(30) == 0x3FFF_FFFF;
  }

  lemma WordTop(d: seq<bool>)
    requires |d| <= 31
    ensures TopClear(Word(d))
  {
    WordInsideLow(d);
    LowMonotone(|d|, 31);
    Low31();
    InsideTop(Word(d), Low(|d|));
  }

  lemma InsideTop(w: bv32, mask: bv32)
    requires Inside(w, mask) && Inside(mask, 0x7FFF_FFFF)
    ensures TopClear(w)
  {}

  /** Feeding up to 32 bits one by one equals xoring them in at once and clocking. */
  lemma {:induction false} FeedIsClocks(c: bv32, d: seq<bool>)
    requires |d| <= 32
    ensures Feed(c, d) == Clocks(Xor(c, Word(d)), |d|)
    decreases |d|
  {
    if d == [] {
      XorZero(c, 0);
    } else {
      hide Xor;
      hide Clock;
      hide Twice;
      hide TopClear;
      var b, w := BitWord(d[0]), Word(d[1..]);
      FeedIsClocks(Clock(Xor(c, b)), d[1..]);
      WordTop(d[1..]);
      ClockUndoesTwice(w);
      ClockLinear(Xor(c, b), Twice(w));
      XorAlgebra(c, b, Twice(w));
    }
  }

  lemma HalfOfStep(b: bool, w: bv32)
    requires TopClear(w)
    ensures Half(Xor(BitWord(b), Twice(w))) == w
    ensures Odd(Xor(BitWord(b), Twice(w))) == b
  {}

  lemma {:induction false} WordInjective(a: seq<bool>, b: seq<bool>)
    requires |a| == |b| <= 32
    requires Word(a) == Word(b)
    ensures a == b
  {
    if a != [] {
      hide Xor;
      hide Twice;
      hide Half;
      hide Odd;
      hide TopClear;
      WordTop(a[1..]);
      WordTop(b[1..]);
      HalfOfStep(a[0], Word(a[1..]));
      HalfOfStep(b[0], Word(b[1..]));
      WordInjective(a[1..], b[1..]);
      assert a == [a[0]] + a[1..];
    }
  }

  // ------------------------------------------------ burst detection

  /** Two runs over the same bits from different registers end in different registers. */
  lemma {:induction false} FeedSameInjective(c: bv32, e: bv32, bits: seq<bool>)
    requires Feed(c, bits) == Feed(e, bits)
    ensures c == e
    decreases |bits|
  {
    if bits != [] {
      hide Xor;
      hide Clock;
      var b := BitWord(bits[0]);
      FeedSameInjective(Clock(Xor(c, b)), Clock(Xor(e, b)), bits[1..]);
      ClockInjective(Xor(c, b), Xor(e, b));
      XorCancel(b, c, e);
    }
  }

  lemma XorCancel(b: bv32, c: bv32, e: bv32)
    requires Xor(c, b) == Xor(e, b) || Xor(b, c) == Xor(b, e)
    ensures c == e
  {}

  lemma FeedBurst(c: bv32, a: seq<bool>, b: seq<bool>)
    requires |a| == |b| <= 32
    requires Feed(c, a) == Feed(c, b)
    ensures a == b
  {
    hide Xor;
    FeedIsClocks(c, a);
    FeedIsClocks(c, b);
    ClocksInjective(Xor(c, Word(a)), Xor(c, Word(b)), |a|);
    XorCancel(c, Word(a), Word(b));
    WordInjective(a, b);
  }

  predicate Within(w: bv32, n: nat)
    decreases n
  {
    if n == 0 then w == 0 else Within(Half(w), n - 1)
  }

  lemma TwiceOfHalf(w: bv32)
    ensures Xor(BitWord(Odd(w)), Twice(Half(w))) == w
  {}

  lemma {:induction false} WordOfBits(w: bv32, n: nat)
    requires Within(w, n)
    ensures Word(Bits(w, n)) == w
    decreases n
  {
    if n > 0 {
      hide Xor;
      hide Twice;
      hide Half;
      hide Odd;
      hide BitWord;
      WordOfBits(Half(w), n - 1);
      TwiceOfHalf(w);
      assert Bits(w, n)[1..] == Bits(Half(w), n - 1);
    }
  }

  lemma EightHalves(w: bv32)
    ensures Half(Half(Half(Half(Half(Half(Half(Half(w)))))))) == Shift8(w)
    ensures w & 0xFF == 0 ==> !Odd(w) && !Odd(Half(w)) && !Odd(Half(Half(w))) && !Odd(Half(Half(Half(w))))
    ensures w & 0xFF == 0 ==> !Odd(Half(Half(Half(Half(w))))) && !Odd(Half(Half(Half(Half(Half(w))))))
    ensures w & 0xFF == 0 ==> !Odd(Half(Half(Half(Half(Half(Half(w)))))))
    ensures w & 0xFF == 0 ==> !Odd(Half(Half(Half(Half(Half(Half(Half(w))))))))
  {}

  function Shift8(c: bv32): bv32 { c >> 8 }

  lemma WordOfByte(b: bv8)
    ensures Word(ByteBits(b)) == Widen(b)
  {
    var w := Widen(b);
    assert Shift8(w) == 0;
    EightHalves(w);
    hide Half;
    hide Odd;
    hide Shift8;
    assert Within(Half(Half(Half(Half(w)))), 4);
    assert Within(Half(Half(w)), 6);
    WordOfBits(w, 8);
  }

  lemma ByteBitsInjective(a: bv8, b: bv8)
    requires ByteBits(a) == ByteBits(b)
    ensures a == b
  {
    WordOfByte(a);
    WordOfByte(b);
    WidenInjective(a, b);
  }

  lemma WidenInjective(a: bv8, b: bv8)
    requires Widen(a) == Widen(b)
    ensures a == b
  {}

  lemma SplitEqual<T>(a: seq<T>, x: seq<T>, b: seq<T>, y: seq<T>)
    requires |a| == |b| && a + x == b + y
    ensures a == b && x == y
  {
    assert a == (a + x)[..|a|] && x == (a + x)[|a|..];
    assert b == (b + y)[..|b|] && y == (b + y)[|b|..];
  }

  lemma SamePrefixAndLast<T>(m: seq<T>, n: seq<T>)
    requires |m| == |n| > 0 && m[..|m| - 1] == n[..|m| - 1] && m[|m| - 1] == n[|m| - 1]
    ensures m == n
  {
    assert m == m[..|m| - 1] + [m[|m| - 1]] && n == n[..|m| - 1] + [n[|m| - 1]];
  }

  lemma {:induction false} MessageBitsInjective(m: seq<bv8>, n: seq<bv8>)
    requires MessageBits(m) == MessageBits(n)
    ensures m == n
    decreases |m|
  {
    if m != [] {
      hide ByteBits;
      var k := |m| - 1;
      SplitEqual(MessageBits(m[..k]), ByteBits(m[k]), MessageBits(n[..k]), ByteBits(n[k]));
      MessageBitsInjective(m[..k], n[..k]);
      ByteBitsInjective(m[k], n[k]);
      SamePrefixAndLast(m, n);
    }
  }

  lemma FeedWindow(c: bv32, pre: seq<bool>, a: seq<bool>, b: seq<bool>, post: seq<bool>)
    requires |a| == |b| <= 32
    requires Feed(c, pre + (a + post)) == Feed(c, pre + (b + post))
    ensures a == b
  {
    hide Xor;
    var e := Feed(c, pre);
    FeedAppend(c, pre, a + post);
    FeedAppend(c, pre, b + post);
    FeedAppend(e, a, post);
    FeedAppend(e, b, post);
    FeedSameInjective(Feed(e, a), Feed(e, b), post);
    FeedBurst(e, a, b);
  }

  predicate AgreeOutside(p: seq<bool>, q: seq<bool>, lo: nat, hi: nat)
    requires |p| == |q|
  {
    forall k :: 0 <= k < |p| && !(lo <= k < hi) ==> p[k] == q[k]
  }

  lemma SplitAtWindow(p: seq<bool>, q: seq<bool>, lo: nat, hi: nat)
    requires |p| == |q| && lo <= hi <= |p|
    requires AgreeOutside(p, q, lo, hi)
    ensures p == p[..lo] + (p[lo..hi] + p[hi..])
    ensures q == p[..lo] + (q[lo..hi] + p[hi..])
  {
    assert p[..lo] == q[..lo] && p[hi..] == q[hi..];
  }

  /** Messages of one length that differ, and whose bits agree outside a window of 32
      consecutive bits starting at bit `at`, have different checksums. */
  lemma DetectsBursts(m: seq<bv8>, n: seq<bv8>, at: nat)
    requires |m| == |n| && m != n
    requires AgreeOutside(MessageBits(m), MessageBits(n), at, at + 32)
    ensures BitwiseCrc(m) != BitwiseCrc(n)
  {
    var p, q := MessageBits(m), MessageBits(n);
    var lo := if at <= |p| then at else |p|;
    var hi := if at + 32 <= |p| then at + 32 else |p|;
    if BitwiseCrc(m) == BitwiseCrc(n) {
      XorCancel(ONES, Register(m), Register(n));
      hide Xor;
      SplitAtWindow(p, q, lo, hi);
      FeedWindow(ONES, p[..lo], p[lo..hi], q[lo..hi], p[hi..]);
      MessageBitsInjective(m, n);
    }
  }

  predicate BytesAgreeOutside(m: seq<bv8>, n: seq<bv8>, lo: nat, hi: nat)
    requires |m| == |n|
  {
    forall k :: 0 <= k < |m| && !(lo <= k < hi) ==> m[k] == n[k]
  }

  lemma {:induction false} BytesToBits(m: seq<bv8>, n: seq<bv8>, lo: nat, hi: nat)
    requires |m| == |n| && BytesAgreeOutside(m, n, lo, hi)
    ensures AgreeOutside(MessageBits(m), MessageBits(n), 8 * lo, 8 * hi)
    decreases |m|
  {
    if m != [] {
      hide ByteBits;
      BytesToBits(m[..|m| - 1], n[..|n| - 1], lo, hi);
    }
  }

  /** Messages of one length that differ, and only within four consecutive bytes, have different checksums. */
  lemma DetectsByteBursts(m: seq<bv8>, n: seq<bv8>, at: nat)
    requires |m| == |n| && m != n && BytesAgreeOutside(m, n, at, at + 4)
    ensures BitwiseCrc(m) != BitwiseCrc(n)
  {
    BytesToBits(m, n, at, at + 4);
    DetectsBursts(m, n, 8 * at);
  }

  // ------------------------------------------------ the table

  function LowByte(c: bv32): bv8 { (c & 0xFF) as bv8 }

  /** Eight clocks only move a register whose low byte is empty. */
  lemma ClocksEmptyByte(h: bv32)
    requires h & 0xFF == 0
    ensures Clocks(h, 8) == Shift8(h)
  {
    EightHalves(h);
    hide Half;
    hide Odd;
    hide Shift8;
    assert Clocks(h, 8) == Clocks(Half(Half(h)), 6);
    assert Clocks(Half(Half(h)), 6) == Clocks(Half(Half(Half(Half(h)))), 4);
    assert Clocks(Half(Half(Half(Half(h)))), 4) == Clocks(Half(Half(Half(Half(Half(Half(h)))))), 2);
  }

  function HighPart(x: bv32): bv32 { x & 0xFFFF_FF00 }

  lemma SplitLowByte(c: bv32, b: bv8)
    ensures var x := Xor(c, Widen(b));
      x == Xor(Widen(LowByte(x)), HighPart(x)) && HighPart(x) & 0xFF == 0 && Shift8(HighPart(x)) == Shift8(c)
  {}

  /** One table step of the source is eight clocks of the reference register. */
  lemma TableStepIsFeed(c: bv32, b: bv8)
    ensures Xor(Clocks(Widen(LowByte(Xor(c, Widen(b)))), 8), Shift8(c)) == Feed(c, ByteBits(b))
  {
    var x := Xor(c, Widen(b));
    SplitLowByte(c, b);
    ClocksEmptyByte(HighPart(x));
    hide Xor;
    hide Shift8;
    hide HighPart;
    hide Widen;
    hide LowByte;
    WordOfByte(b);
    FeedIsClocks(c, ByteBits(b));
    ClocksLinear(Widen(LowByte(x)), HighPart(x), 8);
  }

  lemma RegisterStep(m: seq<bv8>, k: nat)
    requires k < |m|
    ensures Register(m[..k + 1]) == Feed(Register(m[..k]), ByteBits(m[k]))
  {
    hide ByteBits;
    hide Feed;
    var n := m[..k + 1];
    assert n[..|n| - 1] == m[..k] && n[|n| - 1] == m[k];
    FeedAppend(ONES, MessageBits(m[..k]), ByteBits(m[k]));
  }

  lemma SameByte(k: bv8, i: int)
    requires k as int == i
    ensures k == i as bv8
  {}

  class Checksum {
    const crcTable: array<bv32>

    ghost predicate Valid()
      reads crcTable
    {
      crcTable.Length == 256 && forall i: bv8 :: crcTable[i as int] == Clocks(Widen(i), 8)
    }

    constructor ()
      ensures Valid() && fresh(crcTable)
    {
      crcTable := new bv32[256];
      new;
      for i := 0 to 256
        invariant forall k: bv8 :: k as int < i ==> crcTable[k as int] == Clocks(Widen(k), 8)
      {
        crcTable[i] := TableEntry(i as bv8);
        forall k: bv8 ensures k as int < i + 1 ==> crcTable[k as int] == Clocks(Widen(k), 8) {
          if k as int == i {
            SameByte(k, i);
          }
        }
      }
    }

    static method TableEntry(i: bv8) returns (c: bv32)
      ensures c == Clocks(Widen(i), 8)
    {
      c := Widen(i);
      for j := 0 to 8
        invariant Clocks(c, 8 - j) == Clocks(Widen(i), 8)
      {
        if c & 1 != 0 {
          c := POLY ^ (c >> 1);
        } else {
          c := c >> 1;
        }
      }
    }

    method CRC32(buf: array<bv8>, len: nat) returns (crc: bv32)
      requires Valid() && len <= buf.Length
      ensures crc == BitwiseCrc(buf[..len])
    {
      var c: bv32 := 0xFFFF_FFFF;
      for i := 0 to len
        invariant c == Register(buf[..i])
      {
        RegisterStep(buf[..], i);
        assert buf[..][..i] == buf[..i] && buf[..][..i + 1] == buf[..i + 1];
        TableStepIsFeed(c, buf[i]);
        hide Xor;
        hide Shift8;
        hide Widen;
        hide LowByte;
        var index := LowByte(Xor(c, Widen(buf[i])));
        c := Xor(crcTable[index as int], Shift8(c));
      }
      return Xor(c, 0xFFFF_FFFF);
    }
  }
}
