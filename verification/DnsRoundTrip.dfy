/** Encoding a host name into a query and decoding it again (sections 3.1 and 3.5 of RFC 1035). */
module DnsRoundTrip {
  import opened Common
  import opened DnsName
  import opened DnsQuery

  /** Labels a host name may consist of. */
  predicate HostLabel(l: Label) { 1 <= |l| <= 63 && DOT !in l && 0 !in l }

  predicate Host(ls: seq<Label>) { forall i :: 0 <= i < |ls| ==> HostLabel(ls[i]) }

  /** A name on the wire: length octet and label, in turn, then zero. */
  function Wire(ls: seq<Label>): (w: seq<Byte>)
    ensures 1 <= |w|
    decreases |ls|
  {
    if ls == [] then [0] else [LengthOctet(|ls[0]|)] + ls[0] + Wire(ls[1..])
  }

  lemma {:induction false} DottedFront(ls: seq<Label>)
    requires ls != []
    ensures Dotted(ls) == ls[0] + (if |ls| == 1 then [] else [DOT] + Dotted(ls[1..]))
    decreases |ls|
  {
    var n := |ls| - 1;
    if n > 0 {
      var init := ls[..n];
      DottedFront(init);
      assert ls[1..][..n - 1] == init[1..];
      if n > 1 {
        Assoc(ls[0], [DOT] + Dotted(init[1..]), [DOT] + ls[n]);
        Assoc([DOT], Dotted(init[1..]), [DOT] + ls[n]);
        Assoc(Dotted(init[1..]), [DOT], ls[n]);
        Assoc(Dotted(init), [DOT], ls[n]);
      } else {
        Assoc(ls[0], [DOT], ls[1]);
        assert Dotted(init) == ls[0];
        assert ls[1..] == [ls[1]];
        assert Dotted(ls[1..]) == ls[1] by { assert ls[1..][..0] == []; assert [] + [] + ls[1] == ls[1]; }
      }
    } else {
      assert [] + [] + ls[0] == ls[0];
    }
  }

  /** The head of `l` followed by nothing or by a dot is `l`. */
  lemma {:induction false} HeadOf(l: Label, rest: seq<Byte>)
    requires DOT !in l && (rest == [] || rest[0] == DOT)
    ensures Head(l + rest) == l
    decreases |l|
  {
    if l == [] {
      assert l + rest == rest;
    } else {
      assert (l + rest)[1..] == l[1..] + rest;
      HeadOf(l[1..], rest);
    }
  }

  /** What the encoder makes of any text, label by label: no label is refused, and a length keeps its low eight bits. */
  lemma EncodeLabels(l: Label, rest: seq<Byte>)
    requires 46 !in l
    ensures Encode(l + [46] + rest) == [|l| % 256] + l + Encode(rest)
    ensures l != [] ==> Encode(l) == [|l| % 256] + l + [0]
  {
    var host := l + [46] + rest;
    assert host == l + ([46] + rest) && l + [] == l;
    HeadOf(l, [46] + rest);
    HeadOf(l, []);
    hide Head;
    assert host[|l| + 1..] == rest;
    if l != [] {
      assert l[|l|..] == [];
    }
  }

  /** The encoder spells out the labels of a dotted name. */
  lemma {:induction false} EncodeDotted(ls: seq<Label>)
    requires Host(ls)
    ensures Encode(Dotted(ls)) == Wire(ls)
    decreases |ls|
  {
    if ls != [] {
      var host := Dotted(ls);
      var l, rest := ls[0], if |ls| == 1 then [] else [DOT] + Dotted(ls[1..]);
      DottedFront(ls);
      HeadOf(l, rest);
      EncodeDotted(ls[1..]);
      var k := Min(|l| + 1, |host|);
      assert host[k..] == if |ls| == 1 then [] else Dotted(ls[1..]);
      EncodeEmpty();
      hide Dotted;
      hide Head;
    }
  }

  lemma HostTail(ls: seq<Label>)
    requires Host(ls) && ls != []
    ensures HostLabel(ls[0]) && Host(ls[1..])
  {}

  lemma LastZero(head: seq<Byte>, rest: seq<Byte>)
    requires 0 !in head && rest != [] && rest[|rest| - 1] == 0 && 0 !in rest[..|rest| - 1]
    ensures var w := head + rest; w[|w| - 1] == 0 && 0 !in w[..|w| - 1]
  {
    var w := head + rest;
    assert w[..|w| - 1] == head + rest[..|rest| - 1];
  }

  lemma {:induction false} WireHasOneZero(ls: seq<Label>)
    requires Host(ls)
    ensures Wire(ls)[|Wire(ls)| - 1] == 0 && 0 !in Wire(ls)[..|Wire(ls)| - 1]
    decreases |ls|
  {
    if ls != [] {
      WireHasOneZero(ls[1..]);
      HostTail(ls);
      LastZero([LengthOctet(|ls[0]|)] + ls[0], Wire(ls[1..]));
      hide Host;
    }
  }

  lemma QNameDotted(ls: seq<Label>)
    requires Host(ls)
    ensures QName(Dotted(ls)) == Wire(ls)
  {
    EncodeDotted(ls);
    WireHasOneZero(ls);
    StrLenUnique(Wire(ls), |Wire(ls)| - 1);
  }

  /** The octets of `w` stand at position `pos`. */
  predicate Stands(pkt: seq<Byte>, pos: nat, w: seq<Byte>) {
    pos + |w| <= |pkt| && pkt[pos..pos + |w|] == w
  }

  lemma StandsTail(pkt: seq<Byte>, pos: nat, a: seq<Byte>, b: seq<Byte>)
    requires Stands(pkt, pos, a + b)
    ensures pkt[pos..pos + |a|] == a && Stands(pkt, pos + |a|, b)
  {
    assert pkt[pos..pos + |a|] == (a + b)[..|a|];
    assert pkt[pos + |a|..pos + |a| + |b|] == (a + b)[|a|..];
  }

  lemma WireSplit(ls: seq<Label>)
    requires ls != []
    ensures Wire(ls) == [LengthOctet(|ls[0]|)] + ls[0] + Wire(ls[1..])
    ensures |Wire(ls)| == 1 + |ls[0]| + |Wire(ls[1..])|
  {}

  /** A length octet and its label, read as an item. */
  lemma TextItem(pkt: seq<Byte>, pos: nat, l: Label)
    requires 1 <= |l| <= 63 && pos + 1 + |l| < |pkt|
    requires pkt[pos..pos + 1 + |l|] == [LengthOctet(|l|)] + l
    ensures ItemAt(pkt, pos) == Text(l, pos + 1 + |l|)
  {
    var head := pkt[pos..pos + 1 + |l|];
    assert pkt[pos] == head[0] == |l|;
    assert pkt[pos + 1..pos + 1 + |l|] == head[1..] == l;
    hide Offset;
  }

  lemma WireItem(pkt: seq<Byte>, pos: nat, ls: seq<Label>)
    requires ls != [] && HostLabel(ls[0]) && Stands(pkt, pos, Wire(ls))
    ensures var next := pos + 1 + |ls[0]|;
      && ItemAt(pkt, pos) == Text(ls[0], next) && Stands(pkt, next, Wire(ls[1..]))
      && |Wire(ls)| == 1 + |ls[0]| + |Wire(ls[1..])|
  {
    var l, rest := ls[0], Wire(ls[1..]);
    WireSplit(ls);
    hide Wire;
    hide ItemAt;
    hide LengthOctet;
    StandsTail(pkt, pos, [LengthOctet(|l|)] + l, rest);
    TextItem(pkt, pos, l);
  }

  lemma TextStep(pkt: seq<Byte>, pos: nat, fuel: nat)
    requires pos < |pkt| && ItemAt(pkt, pos).Text?
    ensures var i := ItemAt(pkt, pos);
      && Expand(pkt, pos, fuel + 1) == Prepend([i.text], Expand(pkt, i.next, fuel))
      && CursorAfter(pkt, pos) == CursorAfter(pkt, i.next)
  {}

  lemma PrependOne(ls: seq<Label>, e: Expansion)
    requires ls != [] && e == Labels(ls[1..])
    ensures Prepend([ls[0]], e) == Labels(ls)
  {
    assert ls == [ls[0]] + ls[1..];
  }

  lemma ExpandRoot(pkt: seq<Byte>, pos: nat)
    requires Stands(pkt, pos, Wire([]))
    ensures Expand(pkt, pos, 1) == Labels([]) && CursorAfter(pkt, pos) == pos + |Wire([])|
  {
    assert pkt[pos] == pkt[pos..pos + 1][0] == 0;
  }

  /** An uncompressed name expands to its labels and leaves the cursor behind it. */
  lemma {:induction false} ExpandWire(pkt: seq<Byte>, pos: nat, ls: seq<Label>)
    requires Host(ls) && Stands(pkt, pos, Wire(ls))
    ensures Expand(pkt, pos, |ls| + 1) == Labels(ls)
    ensures CursorAfter(pkt, pos) == pos + |Wire(ls)|
    decreases |ls|
  {
    hide *;
    if ls == [] {
      ExpandRoot(pkt, pos);
    } else {
      HostTail(ls);
      WireItem(pkt, pos, ls);
      TextStep(pkt, pos, |ls|);
      ExpandWire(pkt, pos + 1 + |ls[0]|, ls[1..]);
      PrependOne(ls, Expand(pkt, pos + 1 + |ls[0]|, |ls|));
    }
  }

  // ------------------------------------------------ compressed names

  /** The two octets that point to offset t. */
  function PointerTo(t: nat): (two: seq<Byte>)
    requires t < 0x4000
    ensures |two| == 2
  {
    [192 + t / 256, t % 256]
  }

  /** Length octets and labels, without the zero at the end. */
  function Stem(ls: seq<Label>): (w: seq<Byte>)
    decreases |ls|
  {
    if ls == [] then [] else [LengthOctet(|ls[0]|)] + ls[0] + Stem(ls[1..])
  }

  /** Two octets that point to where a name stands expand to it, with the cursor behind the two. */
  lemma PointerExpands(pkt: seq<Byte>, pos: nat, t: nat, fuel: nat)
    requires 12 <= t < 0x4000 && t < |pkt| && Stands(pkt, pos, PointerTo(t))
    ensures Expand(pkt, pos, fuel + 1) == Expand(pkt, t, fuel) && CursorAfter(pkt, pos) == pos + 2
  {
    var two := pkt[pos..pos + 2];
    assert pkt[pos] == two[0] && pkt[pos + 1] == two[1];
    assert ItemAt(pkt, pos) == Pointer(t);
  }

  lemma StemNone(pre: seq<Label>, p: seq<Byte>)
    requires pre == []
    ensures Stem(pre) + p == p && |Stem(pre)| == 0
  {}

  lemma WireInside(pkt: seq<Byte>, t: nat, ls: seq<Label>)
    requires Stands(pkt, t, Wire(ls))
    ensures t < |pkt|
  {}

  lemma StemItem(pkt: seq<Byte>, pos: nat, pre: seq<Label>, p: seq<Byte>)
    requires pre != [] && HostLabel(pre[0]) && Stands(pkt, pos, Stem(pre) + p) && p != []
    ensures var next := pos + 1 + |pre[0]|;
      && pos < |pkt| && ItemAt(pkt, pos) == Text(pre[0], next) && Stands(pkt, next, Stem(pre[1..]) + p)
      && |Stem(pre)| == 1 + |pre[0]| + |Stem(pre[1..])|
  {
    var l, rest := pre[0], Stem(pre[1..]) + p;
    Assoc([LengthOctet(|l|)] + l, Stem(pre[1..]), p);
    assert Stem(pre) + p == [LengthOctet(|l|)] + l + rest;
    hide Stem;
    hide ItemAt;
    hide LengthOctet;
    StandsTail(pkt, pos, [LengthOctet(|l|)] + l, rest);
    TextItem(pkt, pos, l);
  }

  /** Labels and then a pointer, as section 4.1.4 of RFC 1035 allows, expand to the labels followed by the name pointed
      to. */
  lemma {:induction false} CompressedExpands(pkt: seq<Byte>, pos: nat, pre: seq<Label>, t: nat, ls: seq<Label>)
    requires Host(pre) && Host(ls) && 12 <= t < 0x4000
    requires Stands(pkt, t, Wire(ls)) && Stands(pkt, pos, Stem(pre) + PointerTo(t))
    ensures Expand(pkt, pos, |pre| + |ls| + 2) == Labels(pre + ls)
    ensures CursorAfter(pkt, pos) == pos + |Stem(pre)| + 2
    decreases |pre|
  {
    hide *;
    if pre == [] {
      StemNone(pre, PointerTo(t));
      ExpandWire(pkt, t, ls);
      WireInside(pkt, t, ls);
      PointerExpands(pkt, pos, t, |ls| + 1);
      assert pre + ls == ls;
    } else {
      HostTail(pre);
      StemItem(pkt, pos, pre, PointerTo(t));
      CompressedExpands(pkt, pos + 1 + |pre[0]|, pre[1..], t, ls);
      TextStep(pkt, pos, |pre| + |ls| + 1);
      assert (pre + ls)[0] == pre[0] && (pre + ls)[1..] == pre[1..] + ls;
      PrependOne(pre + ls, Expand(pkt, pos + 1 + |pre[0]|, |pre| + |ls| + 1));
    }
  }

  /** Whatever readDNSName returns on such a name, it is the dotted form of all its labels, with the cursor behind the
      pointer. */
  lemma CompressedDecodes(pkt: seq<Byte>, pos: nat, pre: seq<Label>, t: nat, ls: seq<Label>, r: Outcome)
    requires Host(pre) && Host(ls) && 12 <= t < 0x4000 && |Dotted(pre + ls)| <= 255
    requires Stands(pkt, t, Wire(ls)) && Stands(pkt, pos, Stem(pre) + PointerTo(t))
    requires Meaning(pkt, pos, r)
    ensures r == Accepted(Dotted(pre + ls), pos + |Stem(pre)| + 2)
  {
    CompressedExpands(pkt, pos, pre, t, ls);
    assert StandsFor(pkt, pos, pre + ls);
    ShortNamesFit(pre + ls);
    hide Dotted;
    hide Expand;
    hide Stem;
    hide Fits;
    AcceptedExactly(pkt, pos, r);
    AcceptedName(pkt, pos, r, pre + ls);
  }

  lemma {:induction false} DottedGrows(ls: seq<Label>, j: nat)
    requires j <= |ls|
    ensures |Dotted(ls[..j])| <= |Dotted(ls)|
    decreases |ls|
  {
    if j < |ls| {
      assert ls[..|ls| - 1][..j] == ls[..j];
      DottedGrows(ls[..|ls| - 1], j);
    } else {
      assert ls[..j] == ls;
    }
  }

  lemma ShortNamesFit(ls: seq<Label>)
    requires |Dotted(ls)| <= MAX_NAME
    ensures Fits(ls)
  {
    hide Dotted;
    forall j | 0 <= j < |ls| ensures |Dotted(ls[..j])| + |ls[j]| <= MAX_NAME {
      DottedGrows(ls, j + 1);
      assert ls[..j + 1] == ls[..j] + [ls[j]];
      DottedAppend(ls[..j], ls[j]);
    }
  }

  /** Whatever readDNSName returns on the query built for a host name, it is that name, with the cursor on the
      question type; and the computed size is the length of the packet. */
  lemma RoundTrip(ls: seq<Label>, txid: Word16, isPTR: bool, r: Outcome)
    requires Host(ls) && |Dotted(ls)| <= MAX_NAME
    requires Meaning(QueryPacket(txid, Dotted(ls), isPTR), HEADER_SIZE, r)
    ensures var pkt := QueryPacket(txid, Dotted(ls), isPTR);
      && r == Accepted(Dotted(ls), |pkt| - 4)
      && pkt[|pkt| - 4..] == Question(isPTR)
      && |pkt| == HEADER_SIZE + StrLen(Encode(Dotted(ls))) + 1 + 4
  {
    var name := Dotted(ls);
    var pkt := QueryPacket(txid, name, isPTR);
    QNameDotted(ls);
    assert pkt[HEADER_SIZE..HEADER_SIZE + |Wire(ls)|] == Wire(ls);
    ExpandWire(pkt, HEADER_SIZE, ls);
    assert StandsFor(pkt, HEADER_SIZE, ls);
    ShortNamesFit(ls);
    AcceptedExactly(pkt, HEADER_SIZE, r);
    AcceptedName(pkt, HEADER_SIZE, r, ls);
  }

  // ------------------------------------------------ names of addresses

  /** %d of an octet. */
  function Decimal(b: Byte): (d: seq<Byte>)
    ensures 1 <= |d| <= 3
    ensures forall i :: 0 <= i < |d| ==> 48 <= d[i] <= 57
  {
    if b < 10 then [48 + b]
    else if b < 100 then [48 + b / 10, 48 + b % 10]
    else [48 + b / 100, 48 + b / 10 % 10, 48 + b % 10]
  }

  /** The number a string of decimal digits stands for. */
  function Value(d: seq<Byte>): int
    decreases |d|
  {
    if d == [] then 0 else 10 * Value(d[..|d| - 1]) + (d[|d| - 1] as int - 48)
  }

  lemma ValueAppend(d: seq<Byte>, x: Byte)
    ensures Value(d + [x]) == 10 * Value(d) + (x as int - 48)
  {
    assert (d + [x])[..|d|] == d;
  }

  /** %d writes the number, without leading zeros. */
  lemma DecimalValue(b: Byte)
    ensures Value(Decimal(b)) == b
    ensures |Decimal(b)| > 1 ==> Decimal(b)[0] != 48
  {
    var d := Decimal(b);
    var d0: seq<Byte> := [d[0]];
    ValueAppend([], d[0]);
    assert [] + d0 == d0 && Value(d0) == d[0] as int - 48;
    if |d| >= 2 {
      ValueAppend(d0, d[1]);
    }
    if |d| == 3 {
      ValueAppend(d0 + [d[1]], d[2]);
    }
    hide Value;
    assert d == if |d| == 1 then d0 else if |d| == 2 then d0 + [d[1]] else d0 + [d[1]] + [d[2]];
  }

  const IN_ADDR: Label := [105, 110, 45, 97, 100, 100, 114]
  const ARPA: Label := [97, 114, 112, 97]

  /** convertIPtoPTR on the four octets of an address in network order. */
  function PtrName(a: Byte, b: Byte, c: Byte, d: Byte): seq<Byte> {
    Decimal(d) + [DOT] + Decimal(c) + [DOT] + Decimal(b) + [DOT] + Decimal(a) + [DOT] + IN_ADDR + [DOT] + ARPA
  }

  function PtrLabels(a: Byte, b: Byte, c: Byte, d: Byte): seq<Label> {
    [Decimal(d), Decimal(c), Decimal(b), Decimal(a), IN_ADDR, ARPA]
  }

  lemma DottedMore(ls: seq<Label>, l: Label)
    requires ls != []
    ensures Dotted(ls + [l]) == Dotted(ls) + [DOT] + l
  {
    DottedAppend(ls, l);
  }

  lemma PtrNameDotted(a: Byte, b: Byte, c: Byte, d: Byte)
    ensures Dotted(PtrLabels(a, b, c, d)) == PtrName(a, b, c, d)
  {
    hide Decimal;
    var l1: seq<Label> := [Decimal(d)];
    assert Dotted(l1) == Decimal(d) by {
      DottedAppend([], Decimal(d));
      assert [] + l1 == l1;
      assert [] + [] + Decimal(d) == Decimal(d);
    }
    hide Dotted;
    DottedMore(l1, Decimal(c));
    var l2 := l1 + [Decimal(c)];
    DottedMore(l2, Decimal(b));
    var l3 := l2 + [Decimal(b)];
    DottedMore(l3, Decimal(a));
    var l4 := l3 + [Decimal(a)];
    DottedMore(l4, IN_ADDR);
    var l5 := l4 + [IN_ADDR];
    DottedMore(l5, ARPA);
    assert PtrLabels(a, b, c, d) == l5 + [ARPA];
  }

  /** A reverse lookup of any address decodes to the reversed dotted quad under in-addr.arpa. */
  lemma PtrRoundTrip(a: Byte, b: Byte, c: Byte, d: Byte, txid: Word16, r: Outcome)
    requires Meaning(QueryPacket(txid, PtrName(a, b, c, d), true), HEADER_SIZE, r)
    ensures r == Accepted(PtrName(a, b, c, d), |QueryPacket(txid, PtrName(a, b, c, d), true)| - 4)
  {
    PtrNameDotted(a, b, c, d);
    var ls := PtrLabels(a, b, c, d);
    assert HostLabel(IN_ADDR) && HostLabel(ARPA);
    hide QueryPacket;
    hide Meaning;
    hide Dotted;
    RoundTrip(ls, txid, true, r);
  }

  // ------------------------------------------------ the same names as text

  /** The codes of an ASCII text. */
  function Ascii(text: string): (codes: seq<Byte>)
    requires forall i :: 0 <= i < |text| ==> text[i] as int < 128
    ensures |codes| == |text| && forall i :: 0 <= i < |text| ==> codes[i] == text[i] as int
  {
    seq(|text|, i requires 0 <= i < |text| => text[i] as int)
  }

  /** `d` is the number v in decimal, without leading zeros. */
  predicate Numeral(d: seq<Byte>, v: nat) {
    && d != [] && (forall i :: 0 <= i < |d| ==> '0' as int <= d[i] <= '9' as int)
    && Value(d) == v && (|d| > 1 ==> d[0] != '0' as int)
  }

  lemma {:induction false} ValueAtLeast(d: seq<Byte>)
    requires d != [] && d[0] > 48 && forall i :: 0 <= i < |d| ==> 48 <= d[i] <= 57
    ensures Value(d) >= 1 && (|d| >= 2 ==> Value(d) >= 10) && (|d| >= 3 ==> Value(d) >= 100)
    ensures |d| >= 4 ==> Value(d) >= 1000
    decreases |d|
  {
    if |d| >= 2 {
      ValueAtLeast(d[..|d| - 1]);
    }
  }

  lemma ValueUnfold(d: seq<Byte>)
    requires 1 <= |d| <= 3
    ensures |d| == 1 ==> Value(d) == d[0] as int - 48
    ensures |d| == 2 ==> Value(d) == 10 * (d[0] as int - 48) + (d[1] as int - 48)
    ensures |d| == 3 ==> Value(d) == 100 * (d[0] as int - 48) + 10 * (d[1] as int - 48) + (d[2] as int - 48)
  {
    assert Value(d[..1]) == d[0] as int - 48 by { assert d[..1][..0] == []; }
    if |d| >= 2 {
      assert d[..2][..1] == d[..1];
      assert Value(d[..2]) == 10 * Value(d[..1]) + (d[1] as int - 48);
    }
    assert |d| == 3 ==> Value(d) == 10 * Value(d[..2]) + (d[2] as int - 48);
    assert d[..|d|] == d;
  }

  /** At most three digits are determined by the number they stand for. */
  lemma SameDigits(d: seq<Byte>, e: seq<Byte>, v: nat)
    requires Numeral(d, v) && Numeral(e, v) && v < 256
    ensures d == e
  {
    hide Value;
    if |d| > 1 { ValueAtLeast(d); }
    if |e| > 1 { ValueAtLeast(e); }
    ValueUnfold(d);
    ValueUnfold(e);
    assert |d| == |e| && forall i :: 0 <= i < |d| ==> d[i] == e[i];
  }

  /** There is only one numeral of an octet, the one %d writes. */
  lemma OneNumeral(d: seq<Byte>, b: Byte)
    ensures Numeral(d, b) <==> d == Decimal(b)
  {
    hide Value;
    DecimalValue(b);
    assert Numeral(Decimal(b), b);
    if Numeral(d, b) {
      SameDigits(d, Decimal(b), b);
    }
  }

  /** The name asked for in a reverse lookup: the four numbers from the last to the first, then the domain. */
  lemma PtrText(a: Byte, b: Byte, c: Byte, d: Byte, w: seq<Byte>, x: seq<Byte>, y: seq<Byte>, z: seq<Byte>)
    requires Numeral(w, a) && Numeral(x, b) && Numeral(y, c) && Numeral(z, d)
    ensures PtrName(a, b, c, d) ==
            z + Ascii(".") + y + Ascii(".") + x + Ascii(".") + w + Ascii(".in-addr.arpa")
  {
    OneNumeral(w, a);
    OneNumeral(x, b);
    OneNumeral(y, c);
    OneNumeral(z, d);
    hide Decimal;
    hide Numeral;
    assert Ascii(".") == [DOT];
    assert Ascii(".in-addr.arpa") == [DOT] + IN_ADDR + [DOT] + ARPA;
    var front := z + [DOT] + y + [DOT] + x + [DOT] + w;
    Assoc(front, [DOT], IN_ADDR);
    Assoc(front, [DOT] + IN_ADDR, [DOT]);
    Assoc(front, [DOT] + IN_ADDR + [DOT], ARPA);
  }

  // ------------------------------------------------ the longest name the decoder lets through

  function Letters(n: nat): (l: Label)
    ensures |l| == n
  {
    seq(n, _ => 97)
  }

  lemma AppendLetters(ls: seq<Label>, n: nat)
    requires Host(ls) && Fits(ls) && 1 <= n <= 63 && |Dotted(ls)| + n <= MAX_NAME
    ensures var ms := ls + [Letters(n)];
      Host(ms) && Fits(ms) && |Dotted(ms)| == |Dotted(ls)| + n + (if ls == [] then 0 else 1)
  {
    DottedAppend(ls, Letters(n));
    FitsAppend(ls, Letters(n));
    hide Dotted;
    hide Fits;
    assert HostLabel(Letters(n));
  }

  /** The length check leaves room for 256 octets of text: one more than the 255 it names. */
  lemma LongestName() returns (ls: seq<Label>)
    ensures Host(ls) && Fits(ls) && |Dotted(ls)| == MAX_NAME + 1
  {
    AppendLetters([], 63);
    hide Dotted;
    hide Fits;
    hide Host;
    hide Letters;
    ls := [] + [Letters(63)];
    AppendLetters(ls, 63);
    ls := ls + [Letters(63)];
    AppendLetters(ls, 63);
    ls := ls + [Letters(63)];
    AppendLetters(ls, 62);
    ls := ls + [Letters(62)];
    AppendLetters(ls, 1);
    ls := ls + [Letters(1)];
  }
}
