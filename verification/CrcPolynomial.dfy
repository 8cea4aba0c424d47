/** The checksum as a remainder: polynomials over the field of two elements, and the generator of CRC-32 given by its
    exponents. */
module CrcPolynomial {
  import opened Crc32

  /** A polynomial, as the set of the exponents whose coefficient is 1. */
  type Poly = iset<nat>

  ghost function Plus(a: Poly, b: Poly): Poly { iset k: nat | (k in a) != (k in b) }

  /** a times x to the n. */
  ghost function Times(a: Poly, n: nat): Poly { iset k: nat | Raised(a, n, k) }

  ghost predicate Raised(a: Poly, n: nat, k: nat) { n <= k && k - n in a }

  /** x^32 + x^26 + x^23 + x^22 + x^16 + x^12 + x^11 + x^10 + x^8 + x^7 + x^5 + x^4 + x^2 + x + 1. */
  ghost function Generator(): Poly { iset{32, 26, 23, 22, 16, 12, 11, 10, 8, 7, 5, 4, 2, 1, 0} }

  /** All terms below x^32. */
  ghost function Ones(): Poly { iset k: nat | Below32(k) }

  predicate Below32(k: nat) { k < 32 }

  /** A bit sequence whose first bit has the highest exponent. */
  ghost function OfBits(bits: seq<bool>): Poly { iset k: nat | Coefficient(bits, k) }

  predicate Coefficient(bits: seq<bool>, k: nat) { k < |bits| && bits[|bits| - 1 - k] }

  predicate Bit(c: bv32, i: nat) {
    if i == 0 then Odd(c) else Bit(Half(c), i - 1)
  }

  /** The register, whose lowest bit has the highest exponent. */
  ghost function OfWord(c: bv32): Poly { iset k: nat | InWord(c, k) }

  predicate InWord(c: bv32, k: nat) { k < 32 && Bit(c, 31 - k) }

  /** The multiple of the generator by the sum of x to each of `qs`. */
  ghost function Multiple(qs: seq<nat>): Poly
    decreases |qs|
  {
    if qs == [] then iset{} else Plus(Times(Generator(), qs[0]), Multiple(qs[1..]))
  }

  // ------------------------------------------------ words as polynomials

  lemma {:induction false} BitXor(a: bv32, b: bv32, i: nat)
    ensures Bit(Xor(a, b), i) <==> Bit(a, i) != Bit(b, i)
    decreases i
  {
    hide Xor;
    hide Half;
    hide Odd;
    HalfOfXor(a, b);
    if i > 0 {
      BitXor(Half(a), Half(b), i - 1);
    }
  }

  lemma {:induction false} BitBeyond(c: bv32, n: nat, i: nat)
    requires Crc32.Within(c, n) && n <= i
    ensures !Bit(c, i)
    decreases i
  {
    hide Half;
    if i > 0 {
      if n == 0 {
        assert Half(c) == 0 by { HalfZero(); }
        BitBeyond(Half(c), 0, i - 1);
      } else {
        BitBeyond(Half(c), n - 1, i - 1);
      }
    }
  }

  lemma HalfZero()
    ensures Half(0) == 0
  {}

  lemma {:induction false} WithinByte(c: bv32, n: nat)
    requires Crc32.Within(Shift8(c), n)
    ensures Crc32.Within(c, n + 8)
  {
    EightHalves(c);
    hide Half;
    hide Shift8;
    WithinFour(Half(Half(Half(Half(c)))), n);
    WithinFour(c, n + 4);
  }

  lemma WithinFour(c: bv32, n: nat)
    requires Crc32.Within(Half(Half(Half(Half(c)))), n)
    ensures Crc32.Within(c, n + 4)
  {
    hide Half;
    assert Crc32.Within(Half(Half(Half(c))), n + 1);
    assert Crc32.Within(Half(Half(c)), n + 2);
    assert Crc32.Within(Half(c), n + 3);
  }

  lemma FourBytes(c: bv32)
    ensures Shift8(Shift8(Shift8(Shift8(c)))) == 0
  {}

  lemma WithinWord(c: bv32)
    ensures Crc32.Within(c, 32)
  {
    FourBytes(c);
    hide Shift8;
    WithinByte(Shift8(Shift8(Shift8(c))), 0);
    WithinByte(Shift8(Shift8(c)), 8);
    WithinByte(Shift8(c), 16);
    WithinByte(c, 24);
  }

  lemma WordXor(a: bv32, b: bv32)
    ensures OfWord(Xor(a, b)) == Plus(OfWord(a), OfWord(b))
  {
    hide Xor;
    forall k: nat | k < 32 ensures k in OfWord(Xor(a, b)) <==> k in Plus(OfWord(a), OfWord(b)) {
      BitXor(a, b, 31 - k);
    }
  }

  lemma WordOfBit(b: bool)
    ensures OfWord(BitWord(b)) == if b then iset{31} else iset{}
  {
    HalfZero();
    assert Half(1) == 0;
    forall i: nat | 1 <= i ensures !Bit(BitWord(b), i) {
      BitBeyond(0, 0, i - 1);
    }
    BitBeyond(0, 0, 0);
  }

  /** The bits of a byte, by their masks; and the bits above it. */
  lemma LowBits(c: bv32)
    ensures Bit(c, 0) <==> c & 1 != 0
    ensures Bit(c, 1) <==> c & 2 != 0
    ensures Bit(c, 2) <==> c & 4 != 0
    ensures Bit(c, 3) <==> c & 8 != 0
  {
    assert Bit(c, 1) <==> Bit(Half(c), 0);
    assert Bit(c, 2) <==> Bit(Half(Half(c)), 0);
    assert Bit(c, 3) <==> Bit(Half(Half(Half(c))), 0) by { assert Bit(c, 3) <==> Bit(Half(c), 2); }
  }

  function Shift4(c: bv32): bv32 { c >> 4 }

  lemma FourHalves(c: bv32)
    ensures Half(Half(Half(Half(c)))) == Shift4(c)
  {}

  lemma HighBits(c: bv32, i: nat)
    ensures Bit(c, i + 4) <==> Bit(Shift4(c), i)
  {
    FourHalves(c);
    hide Half;
    hide Shift4;
    assert Bit(c, i + 4) <==> Bit(Half(c), i + 3);
    assert Bit(Half(c), i + 3) <==> Bit(Half(Half(c)), i + 2);
    assert Bit(Half(Half(c)), i + 2) <==> Bit(Half(Half(Half(c))), i + 1);
  }

  /** The word of the source holds the generator's exponents below 32. */
  lemma PolyBit(i: nat)
    requires i < 32
    ensures Bit(POLY, i) <==> 31 - i in Generator()
  {
    hide Bit;
    if 4 <= i {
      HighBits(0xEDB88320, i - 4);
      assert Shift4(0xEDB88320) == 0xEDB8832;
    }
    if 8 <= i {
      HighBits(0xEDB8832, i - 8);
      assert Shift4(0xEDB8832) == 0xEDB883;
    }
    if 12 <= i {
      HighBits(0xEDB883, i - 12);
      assert Shift4(0xEDB883) == 0xEDB88;
    }
    if 16 <= i {
      HighBits(0xEDB88, i - 16);
      assert Shift4(0xEDB88) == 0xEDB8;
    }
    if 20 <= i {
      HighBits(0xEDB8, i - 20);
      assert Shift4(0xEDB8) == 0xEDB;
    }
    if 24 <= i {
      HighBits(0xEDB, i - 24);
      assert Shift4(0xEDB) == 0xED;
    }
    if 28 <= i {
      HighBits(0xED, i - 28);
      assert Shift4(0xED) == 0xE;
    }
    LowBits(0xEDB88320);
    LowBits(0xEDB8832);
    LowBits(0xEDB883);
    LowBits(0xEDB88);
    LowBits(0xEDB8);
    LowBits(0xEDB);
    LowBits(0xED);
    LowBits(0xE);
  }

  lemma PolyIsGenerator()
    ensures Plus(OfWord(POLY), iset{32}) == Generator()
  {
    forall k: nat | k < 32 ensures k in OfWord(POLY) <==> k in Generator() {
      PolyBit(31 - k);
    }
  }

  // ------------------------------------------------ the algebra

  lemma PlusLaws(a: Poly, b: Poly, c: Poly)
    ensures Plus(a, Plus(b, c)) == Plus(Plus(a, b), c)
    ensures Plus(a, b) == Plus(b, a) && Plus(a, iset{}) == a && Plus(a, a) == iset{}
  {}

  lemma TimesPlus(a: Poly, b: Poly, n: nat)
    ensures Times(Plus(a, b), n) == Plus(Times(a, n), Times(b, n))
  {
    forall k: nat ensures k in Times(Plus(a, b), n) <==> k in Plus(Times(a, n), Times(b, n)) {
      assert Raised(Plus(a, b), n, k) <==> Raised(a, n, k) != Raised(b, n, k);
    }
  }

  lemma TimesTimes(a: Poly, m: nat, n: nat)
    ensures Times(Times(a, m), n) == Times(a, m + n)
  {
    forall k: nat ensures k in Times(Times(a, m), n) <==> k in Times(a, m + n) {
      if n <= k { assert Raised(a, m, k - n) <==> Raised(a, m + n, k); }
    }
  }

  lemma TimesEmpty(n: nat)
    ensures Times(iset{}, n) == iset{}
  {
    assert forall k: nat :: !Raised(iset{}, n, k);
  }

  // ------------------------------------------------ one clock

  /** A clock multiplies by x and takes the generator away when that reaches x^32. */
  lemma ClockIsTimesX(c: bv32)
    ensures OfWord(Clock(c)) ==
            if Odd(c) then Plus(Times(OfWord(c), 1), Generator()) else Times(OfWord(c), 1)
  {
    WithinWord(c);
    BitBeyond(c, 32, 32);
    hide Xor;
    hide Half;
    HalfIsTimesX(c);
    if Odd(c) {
      WordXor(POLY, Half(c));
      PolyIsGenerator();
      hide OfWord;
      hide Times;
      PlusLaws(Plus(Times(OfWord(c), 1), iset{32}), OfWord(POLY), iset{32});
      PlusLaws(Times(OfWord(c), 1), iset{32}, Generator());
      assert Plus(OfWord(POLY), Plus(Times(OfWord(c), 1), iset{32})) ==
             Plus(Times(OfWord(c), 1), Plus(OfWord(POLY), iset{32}));
    }
  }

  lemma HalfIsTimesX(c: bv32)
    ensures OfWord(Half(c)) == if Odd(c) then Plus(Times(OfWord(c), 1), iset{32}) else Times(OfWord(c), 1)
  {
    WithinWord(c);
    BitBeyond(c, 32, 32);
    hide Half;
    forall k: nat ensures Raised(OfWord(c), 1, k) <==> 1 <= k <= 32 && Bit(c, 32 - k) {
      if 1 <= k { assert k - 1 in OfWord(c) <==> InWord(c, k - 1); }
    }
    forall k: nat | k < 32 ensures InWord(Half(c), k) <==> Bit(c, 32 - k) {}
  }

  // ------------------------------------------------ the whole message

  lemma Rearrange(a: Poly, v: Poly, g: Poly, b: Poly, m: Poly)
    ensures Plus(Plus(Plus(Plus(a, v), g), b), m) == Plus(Plus(a, Plus(b, v)), Plus(g, m))
  {}

  /** x^k, or nothing. */
  ghost function Term(b: bool, k: nat): Poly { if b then iset{k} else iset{} }

  lemma TimesTerm(b: bool, k: nat, n: nat)
    ensures Times(Term(b, k), n) == Term(b, k + n)
  {
    forall j: nat ensures j in Times(Term(b, k), n) <==> j in Term(b, k + n) {
      assert Raised(Term(b, k), n, j) <==> j in Term(b, k + n);
    }
  }

  lemma OfBitsFirst(bits: seq<bool>)
    requires bits != []
    ensures OfBits(bits) == Plus(OfBits(bits[1..]), Term(bits[0], |bits| - 1))
  {
    forall k: nat ensures k in OfBits(bits) <==> k in Plus(OfBits(bits[1..]), Term(bits[0], |bits| - 1)) {
      assert Coefficient(bits, k) <==> Coefficient(bits[1..], k) != (k in Term(bits[0], |bits| - 1));
    }
  }

  /** One bit fed into the register, followed by n more clocks' worth of x. */
  lemma FeedOne(c: bv32, b: bool, n: nat)
    ensures var x := Xor(c, BitWord(b));
      Times(OfWord(Clock(x)), n) ==
        Plus(Plus(Times(OfWord(c), n + 1), Term(b, n + 32)),
             if Odd(x) then Times(Generator(), n) else iset{})
  {
    var x := Xor(c, BitWord(b));
    ClockIsTimesX(x);
    WordXor(c, BitWord(b));
    WordOfBit(b);
    assert OfWord(BitWord(b)) == Term(b, 31);
    hide *;
    TimesTimes(OfWord(x), 1, n);
    TimesPlus(Times(OfWord(x), 1), Generator(), n);
    TimesPlus(OfWord(c), Term(b, 31), n + 1);
    TimesTerm(b, 31, n + 1);
    PlusLaws(Times(OfWord(x), n + 1), iset{}, iset{});
  }

  /** Feeding bits leaves the register and the bits, moved up, less a multiple of the generator. */
  lemma {:induction false} FeedIsRemainder(c: bv32, bits: seq<bool>) returns (qs: seq<nat>)
    ensures OfWord(Feed(c, bits)) ==
            Plus(Plus(Times(OfWord(c), |bits|), Times(OfBits(bits), 32)), Multiple(qs))
    decreases |bits|
  {
    hide Clock;
    hide Xor;
    hide OfWord;
    hide Generator;
    if bits == [] {
      qs := [];
      NoBits(OfWord(c));
    } else {
      var n, b := |bits| - 1, bits[0];
      var x := Xor(c, BitWord(b));
      var rs := FeedIsRemainder(Clock(x), bits[1..]);
      qs := if Odd(x) then [n] + rs else rs;
      FeedOne(c, b, n);
      OfBitsFirst(bits);
      TimesPlus(OfBits(bits[1..]), Term(b, n), 32);
      TimesTerm(b, n, 32);
      var g := if Odd(x) then Times(Generator(), n) else iset{};
      MultipleMore(Odd(x), n, rs);
      hide Times;
      hide Plus;
      hide Multiple;
      Rearrange(Times(OfWord(c), n + 1), Term(b, n + 32), g, Times(OfBits(bits[1..]), 32), Multiple(rs));
    }
  }

  lemma MultipleMore(odd: bool, n: nat, rs: seq<nat>)
    ensures Multiple(if odd then [n] + rs else rs) ==
            Plus(if odd then Times(Generator(), n) else iset{}, Multiple(rs))
  {
    PlusLaws(Multiple(rs), iset{}, iset{});
    if odd {
      assert ([n] + rs)[1..] == rs;
    }
  }

  lemma NoBits(c: Poly)
    ensures Plus(Plus(Times(c, 0), Times(OfBits([]), 32)), Multiple([])) == c
  {
    assert forall k: nat :: !Coefficient([], k);
    assert OfBits([]) == iset{};
    TimesEmpty(32);
    assert forall k: nat :: Raised(c, 0, k) <==> k in c;
    assert Times(c, 0) == c;
    PlusLaws(c, iset{}, iset{});
  }

  lemma AllOnes()
    ensures OfWord(ONES) == Ones()
  {
    forall k: nat | k < 32 ensures InWord(ONES, k) {
      OnesBit(31 - k);
    }
  }

  lemma OnesBit(i: nat)
    requires i < 32
    ensures Bit(ONES, i)
  {
    hide Bit;
    if 4 <= i {
      HighBits(0xFFFF_FFFF, i - 4);
      assert Shift4(0xFFFF_FFFF) == 0xFFF_FFFF;
    }
    if 8 <= i {
      HighBits(0xFFF_FFFF, i - 8);
      assert Shift4(0xFFF_FFFF) == 0xFF_FFFF;
    }
    if 12 <= i {
      HighBits(0xFF_FFFF, i - 12);
      assert Shift4(0xFF_FFFF) == 0xF_FFFF;
    }
    if 16 <= i {
      HighBits(0xF_FFFF, i - 16);
      assert Shift4(0xF_FFFF) == 0xFFFF;
    }
    if 20 <= i {
      HighBits(0xFFFF, i - 20);
      assert Shift4(0xFFFF) == 0xFFF;
    }
    if 24 <= i {
      HighBits(0xFFF, i - 24);
      assert Shift4(0xFFF) == 0xFF;
    }
    if 28 <= i {
      HighBits(0xFF, i - 28);
      assert Shift4(0xFF) == 0xF;
    }
    LowBits(0xFFFF_FFFF);
    LowBits(0xFFF_FFFF);
    LowBits(0xFF_FFFF);
    LowBits(0xF_FFFF);
    LowBits(0xFFFF);
    LowBits(0xFFF);
    LowBits(0xFF);
    LowBits(0xF);
  }

  // ------------------------------------------------ a remainder is unique

  function Without(qs: seq<nat>, d: nat): seq<nat>
    decreases |qs|
  {
    if qs == [] then [] else (if qs[0] == d then [] else [qs[0]]) + Without(qs[1..], d)
  }

  predicate OddlyOften(qs: seq<nat>, d: nat)
    decreases |qs|
  {
    qs != [] && (qs[0] == d) != OddlyOften(qs[1..], d)
  }

  predicate AllBelow(qs: seq<nat>, d: nat) { forall i :: 0 <= i < |qs| ==> qs[i] < d }

  lemma {:induction false} StripTop(qs: seq<nat>, d: nat)
    requires AllBelow(qs, d + 1)
    ensures AllBelow(Without(qs, d), d)
    ensures Multiple(qs) ==
            Plus(if OddlyOften(qs, d) then Times(Generator(), d) else iset{}, Multiple(Without(qs, d)))
    decreases |qs|
  {
    hide Generator;
    hide Times;
    PlusLaws(iset{}, iset{}, iset{});
    if qs != [] {
      StripTop(qs[1..], d);
      hide Plus;
      var t, q, m := Times(Generator(), d), Times(Generator(), qs[0]), Multiple(Without(qs[1..], d));
      PlusLaws(t, t, m);
      PlusLaws(q, t, m);
      PlusLaws(q, iset{}, m);
      PlusLaws(t, q, m);
      PlusLaws(iset{}, q, m);
      PlusLaws(m, m, m);
      PlusLaws(Plus(q, m), m, m);
      if qs[0] != d {
        assert Without(qs, d)[0] == qs[0] && Without(qs, d)[1..] == Without(qs[1..], d);
      } else {
        assert Without(qs, d) == Without(qs[1..], d);
      }
    }
  }

  lemma {:induction false} DegreeOfMultiple(qs: seq<nat>, d: nat)
    requires AllBelow(qs, d)
    ensures forall k :: k in Multiple(qs) ==> k < d + 32
    decreases |qs|
  {
    if qs != [] {
      DegreeOfMultiple(qs[1..], d);
      assert forall k :: k in Times(Generator(), qs[0]) ==> Raised(Generator(), qs[0], k) && k <= qs[0] + 32;
    }
  }

  /** No multiple of the generator but zero has degree below 32. */
  lemma {:induction false} SmallMultiple(qs: seq<nat>, d: nat)
    requires AllBelow(qs, d) && forall k :: k in Multiple(qs) ==> k < 32
    ensures Multiple(qs) == iset{}
    decreases d
  {
    if d > 0 {
      var ws, t := Without(qs, d - 1), Times(Generator(), d - 1);
      StripTop(qs, d - 1);
      DegreeOfMultiple(ws, d - 1);
      assert Raised(Generator(), d - 1, d + 31) && d + 31 in t;
      hide Times;
      hide Generator;
      hide Multiple;
      PlusLaws(Multiple(ws), iset{}, iset{});
      assert d + 31 in Plus(t, Multiple(ws));
      assert !OddlyOften(qs, d - 1);
      SmallMultiple(ws, d - 1);
    }
  }

  function Bound(qs: seq<nat>): (d: nat)
    ensures AllBelow(qs, d)
  {
    if qs == [] then 0
    else
      var d := Bound(qs[1..]);
      assert forall i :: 1 <= i < |qs| ==> qs[i] == qs[1..][i - 1];
      if qs[0] < d then d else qs[0] + 1
  }

  lemma {:induction false} MultipleSum(qs: seq<nat>, rs: seq<nat>)
    ensures Multiple(qs + rs) == Plus(Multiple(qs), Multiple(rs))
    decreases |qs|
  {
    hide Times;
    hide Generator;
    if qs == [] {
      assert qs + rs == rs;
      PlusLaws(Multiple(rs), iset{}, iset{});
    } else {
      assert (qs + rs)[1..] == qs[1..] + rs;
      MultipleSum(qs[1..], rs);
      hide Plus;
      PlusLaws(Times(Generator(), qs[0]), Multiple(qs[1..]), Multiple(rs));
    }
  }

  ghost predicate Remainder(r: Poly, a: Poly) {
    (forall k :: k in r ==> k < 32) && exists qs :: r == Plus(a, Multiple(qs))
  }

  lemma CommonPart(a: Poly, q: Poly, w: Poly)
    ensures Plus(Plus(a, q), Plus(a, w)) == Plus(q, w)
  {}

  lemma RemainderUnique(r: Poly, s: Poly, a: Poly)
    requires Remainder(r, a) && Remainder(s, a)
    ensures r == s
  {
    var qs :| r == Plus(a, Multiple(qs));
    var ws :| s == Plus(a, Multiple(ws));
    MultipleSum(qs, ws);
    CommonPart(a, Multiple(qs), Multiple(ws));
    hide Multiple;
    SmallMultiple(qs + ws, Bound(qs + ws));
    forall k: nat ensures k in r <==> k in s {
      assert k in Plus(r, s) <==> (k in r) != (k in s);
    }
  }

  /** The polynomial whose remainder the checksum is: the message times x^32, its first 32 coefficients complemented. */
  ghost function Dividend(m: seq<bv8>): Poly {
    Plus(Times(OfBits(MessageBits(m)), 32), Times(Ones(), 8 * |m|))
  }

  /** The checksum of any message, read as a polynomial, is the complement of the remainder of that division: the frame
      check sequence of ISO 3309, which section 8 of RFC 1952 names. The remainder is unique. */
  lemma ChecksumIsRemainder(m: seq<bv8>, r: Poly)
    ensures Remainder(r, Dividend(m)) <==> r == Plus(OfWord(BitwiseCrc(m)), Ones())
  {
    var s := Plus(OfWord(BitwiseCrc(m)), Ones());
    ChecksumLeaves(m);
    hide Dividend;
    hide Plus;
    hide OfWord;
    hide BitwiseCrc;
    if Remainder(r, Dividend(m)) {
      RemainderUnique(r, s, Dividend(m));
    }
  }

  lemma ChecksumLeaves(m: seq<bv8>)
    ensures Remainder(Plus(OfWord(BitwiseCrc(m)), Ones()), Dividend(m))
  {
    hide Feed;
    hide MessageBits;
    var qs := FeedIsRemainder(ONES, MessageBits(m));
    AllOnes();
    WordXor(Register(m), ONES);
    var r := OfWord(Register(m));
    assert Plus(OfWord(BitwiseCrc(m)), Ones()) == r by {
      hide OfWord;
      hide Ones;
      PlusLaws(r, Ones(), Ones());
    }
    hide Multiple;
    hide Times;
    hide OfBits;
    PlusLaws(Times(Ones(), 8 * |m|), Times(OfBits(MessageBits(m)), 32), iset{});
  }
}
