/** readDNSName of Hw2.cpp: decompression of a DNS name in place, proved against the expansion of
    section 4.1.4 of RFC 1035. Bytes are unsigned. */
module DnsName {
  import opened Common

  type Byte = b: int | 0 <= b < 256
  type Label = seq<Byte>

  const HEADER_SIZE: nat := 12
  const DOT: Byte := 46
  const MAX_NAME: nat := 255

  datatype Fault = TruncatedJump | JumpLoop | JumpIntoHeader | JumpBeyondPacket
                 | LabelTooLong | TruncatedName | NameTooLong

  // ------------------------------------------------ reference: expansion of a compressed name

  /** What the octets at one position of a packet say. A pointer is the low 14 bits of two octets, and must not lead
      into the 12 octets of the header. */
  datatype Item = Root | Pointer(target: nat) | Text(text: Label, next: nat) | Bad(fault: Fault)

  /** Two octets in network order, less the two high bits. */
  function Low14(high: Byte, low: Byte): nat {
    (256 * (high as int) + low) % 0x4000
  }

  function ItemAt(pkt: seq<Byte>, pos: nat): (item: Item)
    requires pos < |pkt|
    ensures item.Pointer? ==> 12 <= item.target < |pkt|
    ensures item.Text? ==> pos < item.next < |pkt| && 1 <= |item.text| <= 63
  {
    var b := pkt[pos];
    if b == 0 then Root
    else if 192 <= b then
      if |pkt| <= pos + 1 then Bad(TruncatedJump)
      else
        var o := Low14(b, pkt[pos + 1]);
        if o < 12 then Bad(JumpIntoHeader)
        else if |pkt| <= o then Bad(JumpBeyondPacket)
        else Pointer(o)
    else if 63 < b then Bad(LabelTooLong)
    else if |pkt| <= pos + 1 + b then Bad(TruncatedName)
    else Text(pkt[pos + 1..pos + 1 + b], pos + 1 + b)
  }

  /** How the decoder reads the two octets of a pointer. */
  function Offset(high: Byte, low: Byte): (o: nat)
    requires 192 <= high
    ensures o == (256 * (high as int) + low) % 0x4000
  {
    (high - 192) * 256 + low
  }

  datatype Expansion = Labels(labels: seq<Label>) | Malformed(fault: Fault) | Unfinished

  /** The labels a name stands for, following at most `fuel` items. */
  function Expand(pkt: seq<Byte>, pos: nat, fuel: nat): Expansion
    requires pos < |pkt|
    decreases fuel
  {
    if fuel == 0 then Unfinished
    else
      match ItemAt(pkt, pos)
      case Root => Labels([])
      case Bad(f) => Malformed(f)
      case Pointer(to) => Expand(pkt, to, fuel - 1)
      case Text(l, to) => Prepend([l], Expand(pkt, to, fuel - 1))
  }

  function Prepend(ls: seq<Label>, e: Expansion): Expansion {
    if e.Labels? then Labels(ls + e.labels) else e
  }

  /** Labels joined with dots. */
  function Dotted(ls: seq<Label>): seq<Byte>
    decreases |ls|
  {
    if ls == [] then []
    else
      var n := |ls| - 1;
      Dotted(ls[..n]) + (if n == 0 then [] else [DOT]) + ls[n]
  }

  /** The limit the decoder checks at each label; it leaves out the dot before that label. */
  ghost predicate Fits(ls: seq<Label>) {
    forall j :: 0 <= j < |ls| ==> |Dotted(ls[..j])| + |ls[j]| <= 255
  }

  /** Just past the first pointer, or past the zero octet when there is none. */
  function CursorAfter(pkt: seq<Byte>, pos: nat): nat
    requires pos < |pkt|
    decreases |pkt| - pos
  {
    match ItemAt(pkt, pos)
    case Root => pos + 1
    case Pointer(_) => pos + 2
    case Text(_, to) => CursorAfter(pkt, to)
    case Bad(_) => pos
  }

  // ------------------------------------------------ walking a packet

  /** `k` items lead from p to q. */
  predicate Leads(pkt: seq<Byte>, p: nat, q: nat, k: nat)
    requires p < |pkt|
    decreases k
  {
    if k == 0 then p == q
    else
      match ItemAt(pkt, p)
      case Pointer(to) => Leads(pkt, to, q, k - 1)
      case Text(_, to) => Leads(pkt, to, q, k - 1)
      case _ => false
  }

  /** The labels met on the way. */
  function Along(pkt: seq<Byte>, p: nat, k: nat): seq<Label>
    requires p < |pkt|
    decreases k
  {
    if k == 0 then []
    else
      match ItemAt(pkt, p)
      case Pointer(to) => Along(pkt, to, k - 1)
      case Text(l, to) => [l] + Along(pkt, to, k - 1)
      case _ => []
  }

  lemma {:induction false} LeadsFurther(pkt: seq<Byte>, p: nat, q: nat, k: nat, r: nat)
    requires p < |pkt| && q < |pkt| && Leads(pkt, p, q, k)
    requires var i := ItemAt(pkt, q); (i.Pointer? && i.target == r) || (i.Text? && i.next == r)
    ensures Leads(pkt, p, r, k + 1)
    ensures Along(pkt, p, k + 1) == Along(pkt, p, k) + (if ItemAt(pkt, q).Text? then [ItemAt(pkt, q).text] else [])
    decreases k
  {
    if k > 0 {
      match ItemAt(pkt, p)
      case Pointer(to) => LeadsFurther(pkt, to, q, k - 1, r);
      case Text(_, to) => LeadsFurther(pkt, to, q, k - 1, r);
    }
  }

  lemma PrependTwice(a: seq<Label>, b: seq<Label>, e: Expansion)
    ensures Prepend(a, Prepend(b, e)) == Prepend(a + b, e)
  {
    if e.Labels? {
      assert a + (b + e.labels) == (a + b) + e.labels;
    }
  }

  lemma {:induction false} ExpandFrom(pkt: seq<Byte>, p: nat, q: nat, k: nat, fuel: nat)
    requires p < |pkt| && q < |pkt| && Leads(pkt, p, q, k)
    ensures Expand(pkt, p, k + fuel) == Prepend(Along(pkt, p, k), Expand(pkt, q, fuel))
    decreases k
  {
    hide Low14;
    if k > 0 {
      match ItemAt(pkt, p)
      case Pointer(to) => ExpandFrom(pkt, to, q, k - 1, fuel);
      case Text(l, to) =>
        ExpandFrom(pkt, to, q, k - 1, fuel);
        PrependTwice([l], Along(pkt, to, k - 1), Expand(pkt, q, fuel));
    }
  }

  lemma {:induction false} LeadsUnfinished(pkt: seq<Byte>, p: nat, q: nat, k: nat, fuel: nat)
    requires p < |pkt| && Leads(pkt, p, q, k) && fuel <= k
    ensures Expand(pkt, p, fuel) == Unfinished
    decreases fuel
  {
    if fuel > 0 {
      match ItemAt(pkt, p)
      case Pointer(to) => LeadsUnfinished(pkt, to, q, k - 1, fuel - 1);
      case Text(_, to) => LeadsUnfinished(pkt, to, q, k - 1, fuel - 1);
    }
  }

  /** A position that leads back to itself has no expansion. */
  lemma {:induction false} LoopNeverEnds(pkt: seq<Byte>, p: nat, k: nat, fuel: nat)
    requires p < |pkt| && 1 <= k && Leads(pkt, p, p, k)
    ensures Expand(pkt, p, fuel) == Unfinished
    decreases fuel
  {
    if fuel <= k {
      LeadsUnfinished(pkt, p, p, k, fuel);
    } else {
      LoopNeverEnds(pkt, p, k, fuel - k);
      ExpandFrom(pkt, p, p, k, fuel - k);
    }
  }

  lemma LeadsToLoop(pkt: seq<Byte>, p: nat, q: nat, k: nat, j: nat, fuel: nat)
    requires p < |pkt| && q < |pkt| && Leads(pkt, p, q, k) && 1 <= j && Leads(pkt, q, q, j)
    ensures Expand(pkt, p, fuel) == Unfinished
  {
    if fuel <= k {
      LeadsUnfinished(pkt, p, q, k, fuel);
    } else {
      LoopNeverEnds(pkt, q, j, fuel - k);
      ExpandFrom(pkt, p, q, k, fuel - k);
    }
  }

  /** More fuel does not change a finished expansion. */
  lemma {:induction false} ExpandMore(pkt: seq<Byte>, p: nat, fuel: nat, more: nat)
    requires p < |pkt| && fuel <= more && Expand(pkt, p, fuel) != Unfinished
    ensures Expand(pkt, p, more) == Expand(pkt, p, fuel)
    decreases fuel
  {
    match ItemAt(pkt, p)
    case Pointer(to) => ExpandMore(pkt, to, fuel - 1, more - 1);
    case Text(_, to) => ExpandMore(pkt, to, fuel - 1, more - 1);
    case _ =>
  }

  lemma ExpandDetermined(pkt: seq<Byte>, p: nat, f: nat, g: nat)
    requires p < |pkt| && Expand(pkt, p, f) != Unfinished && Expand(pkt, p, g) != Unfinished
    ensures Expand(pkt, p, f) == Expand(pkt, p, g)
  {
    if f <= g { ExpandMore(pkt, p, f, g); } else { ExpandMore(pkt, p, g, f); }
  }

  /** The labels met on any walk start the expansion. */
  lemma {:induction false} AlongIsPrefix(pkt: seq<Byte>, p: nat, k: nat, fuel: nat)
    requires p < |pkt| && Expand(pkt, p, fuel).Labels?
    ensures Along(pkt, p, k) <= Expand(pkt, p, fuel).labels
    decreases k
  {
    if k > 0 {
      match ItemAt(pkt, p)
      case Pointer(to) => AlongIsPrefix(pkt, to, k - 1, fuel - 1);
      case Text(_, to) => AlongIsPrefix(pkt, to, k - 1, fuel - 1);
      case _ =>
    }
  }

  lemma FitsPrefix(a: seq<Label>, b: seq<Label>)
    requires a <= b && Fits(b)
    ensures Fits(a)
  {
    forall j | 0 <= j < |a| ensures |Dotted(a[..j])| + |a[j]| <= MAX_NAME {
      assert a[..j] == b[..j] && a[j] == b[j];
    }
  }

  lemma FitsLength(ls: seq<Label>)
    requires Fits(ls)
    ensures |Dotted(ls)| <= MAX_NAME + 1
  {
    if ls != [] {
      assert |Dotted(ls[..|ls| - 1])| + |ls[|ls| - 1]| <= MAX_NAME;
    }
  }

  // ------------------------------------------------ the decoder

  datatype Outcome = Accepted(name: seq<Byte>, cursor: nat) | Rejected(fault: Fault)

  /** The name at `start` expands to the labels `ls`. */
  ghost predicate StandsFor(pkt: seq<Byte>, start: nat, ls: seq<Label>)
    requires start < |pkt|
  {
    exists fuel: nat :: Expand(pkt, start, fuel) == Labels(ls)
  }

  /** What a result of the decoder means in terms of the expansion. */
  ghost predicate Meaning(pkt: seq<Byte>, start: nat, r: Outcome)
    requires start < |pkt|
  {
    match r
    case Accepted(name, cursor) =>
      cursor == CursorAfter(pkt, start) && exists ls :: StandsFor(pkt, start, ls) && Fits(ls) && name == Dotted(ls)
    case Rejected(fault) =>
      match fault
      case JumpLoop => forall fuel: nat :: Expand(pkt, start, fuel) == Unfinished
      case NameTooLong => exists k: nat :: !Fits(Along(pkt, start, k))
      case _ => exists fuel: nat :: Expand(pkt, start, fuel) == Malformed(fault)
  }

  lemma RejectedHasNoName(pkt: seq<Byte>, start: nat, fault: Fault, ls: seq<Label>)
    requires start < |pkt| && Meaning(pkt, start, Rejected(fault))
    ensures !(StandsFor(pkt, start, ls) && Fits(ls))
  {
    if StandsFor(pkt, start, ls) && Fits(ls) {
      var fuel: nat :| Expand(pkt, start, fuel) == Labels(ls);
      if fault == NameTooLong {
        var k: nat :| !Fits(Along(pkt, start, k));
        AlongIsPrefix(pkt, start, k, fuel);
        FitsPrefix(Along(pkt, start, k), ls);
      } else if fault != JumpLoop {
        var g: nat :| Expand(pkt, start, g) == Malformed(fault);
        ExpandDetermined(pkt, start, fuel, g);
      }
    }
  }

  /** The decoder accepts exactly the names that have an expansion within the length limit. */
  lemma AcceptedExactly(pkt: seq<Byte>, start: nat, r: Outcome)
    requires start < |pkt| && Meaning(pkt, start, r)
    ensures r.Accepted? <==> exists ls :: StandsFor(pkt, start, ls) && Fits(ls)
  {
    if r.Rejected? {
      forall ls ensures !(StandsFor(pkt, start, ls) && Fits(ls)) {
        RejectedHasNoName(pkt, start, r.fault, ls);
      }
    }
  }

  /** An accepted name is the only one the packet stands for, and its text needs at most 256 octets. */
  lemma AcceptedName(pkt: seq<Byte>, start: nat, r: Outcome, ls: seq<Label>)
    requires start < |pkt| && Meaning(pkt, start, r) && r.Accepted?
    requires StandsFor(pkt, start, ls)
    ensures r.name == Dotted(ls) && |r.name| <= MAX_NAME + 1
  {
    var ms :| StandsFor(pkt, start, ms) && Fits(ms) && r.name == Dotted(ms);
    var f: nat :| Expand(pkt, start, f) == Labels(ls);
    var g: nat :| Expand(pkt, start, g) == Labels(ms);
    ExpandDetermined(pkt, start, f, g);
    FitsLength(ms);
  }

  lemma DottedAppend(ls: seq<Label>, l: Label)
    ensures Dotted(ls + [l]) == Dotted(ls) + (if ls == [] then [] else [DOT]) + l
  {
    assert (ls + [l])[..|ls|] == ls;
  }

  lemma FitsAppend(ls: seq<Label>, l: Label)
    requires Fits(ls)
    ensures Fits(ls + [l]) <==> |Dotted(ls)| + |l| <= MAX_NAME
  {
    var ms := ls + [l];
    assert ms[..|ls|] == ls;
    forall j | 0 <= j < |ls| ensures |Dotted(ms[..j])| + |ms[j]| <= MAX_NAME {
      assert ms[..j] == ls[..j];
    }
    if Fits(ms) {
      assert |Dotted(ms[..|ls|])| + |ms[|ls|]| <= MAX_NAME;
    }
  }

  lemma DottedEmpty(ls: seq<Label>)
    requires NonEmpty(ls)
    ensures |Dotted(ls)| == 0 <==> ls == []
  {}

  predicate NonEmpty(ls: seq<Label>) { forall i :: 0 <= i < |ls| ==> 1 <= |ls[i]| }

  /** `o` has been jumped to and the walk is still downstream of it. */
  ghost predicate Upstream(pkt: seq<Byte>, o: nat, ptr: nat) {
    12 <= o < |pkt| && exists j: nat :: Leads(pkt, o, ptr, j)
  }

  /** Everything known about the walk when the decoder stands at `ptr`. */
  ghost predicate Walked(pkt: seq<Byte>, start: nat, ptr: nat, k: nat, visited: set<int>) {
    && start < |pkt| && ptr < |pkt|
    && Leads(pkt, start, ptr, k)
    && Fits(Along(pkt, start, k))
    && NonEmpty(Along(pkt, start, k))
    && (forall o :: o in visited ==> Upstream(pkt, o, ptr))
  }

  lemma LeadsNowhere(pkt: seq<Byte>, p: nat)
    requires p < |pkt|
    ensures Leads(pkt, p, p, 0)
  {}

  lemma UpstreamFurther(pkt: seq<Byte>, o: nat, ptr: nat, next: nat)
    requires ptr < |pkt| && Upstream(pkt, o, ptr)
    requires var i := ItemAt(pkt, ptr); (i.Pointer? && i.target == next) || (i.Text? && i.next == next)
    ensures Upstream(pkt, o, next)
  {
    hide Leads;
    hide Along;
    hide Expand;
    hide Dotted;
    hide Fits;
    var j: nat :| Leads(pkt, o, ptr, j);
    LeadsFurther(pkt, o, ptr, j, next);
  }

  lemma WalkText(pkt: seq<Byte>, start: nat, ptr: nat, k: nat, visited: set<int>)
    requires Walked(pkt, start, ptr, k, visited) && ItemAt(pkt, ptr).Text?
    ensures var i, ls := ItemAt(pkt, ptr), Along(pkt, start, k);
      && Along(pkt, start, k + 1) == ls + [i.text] && NonEmpty(ls)
      && (|Dotted(ls)| + |i.text| <= MAX_NAME ==> Walked(pkt, start, i.next, k + 1, visited))
      && (|Dotted(ls)| + |i.text| > MAX_NAME ==> Meaning(pkt, start, Rejected(NameTooLong)))
  {
    hide Leads;
    hide Along;
    hide Expand;
    hide Dotted;
    hide Fits;
    var i := ItemAt(pkt, ptr);
    LeadsFurther(pkt, start, ptr, k, i.next);
    FitsAppend(Along(pkt, start, k), i.text);
    forall o | o in visited ensures Upstream(pkt, o, i.next) {
      UpstreamFurther(pkt, o, ptr, i.next);
    }
  }

  lemma WalkPointer(pkt: seq<Byte>, start: nat, ptr: nat, k: nat, visited: set<int>)
    requires Walked(pkt, start, ptr, k, visited) && ItemAt(pkt, ptr).Pointer?
    ensures var to := ItemAt(pkt, ptr).target;
      && Along(pkt, start, k + 1) == Along(pkt, start, k)
      && Walked(pkt, start, to, k + 1, visited + {to})
  {
    hide Leads;
    hide Along;
    hide Expand;
    hide Dotted;
    hide Fits;
    var to := ItemAt(pkt, ptr).target;
    LeadsFurther(pkt, start, ptr, k, to);
    assert Along(pkt, start, k) + [] == Along(pkt, start, k);
    forall o | o in visited ensures Upstream(pkt, o, to) {
      UpstreamFurther(pkt, o, ptr, to);
    }
    LeadsNowhere(pkt, to);
  }

  /** Jumping to an offset already jumped to closes a cycle. */
  lemma WalkLoop(pkt: seq<Byte>, start: nat, ptr: nat, k: nat, visited: set<int>)
    requires Walked(pkt, start, ptr, k, visited)
    requires 192 <= pkt[ptr] && ptr + 1 < |pkt| && Offset(pkt[ptr], pkt[ptr + 1]) in visited
    ensures Meaning(pkt, start, Rejected(JumpLoop))
  {
    hide Leads;
    hide Along;
    hide Expand;
    hide Dotted;
    hide Fits;
    var o := Offset(pkt[ptr], pkt[ptr + 1]);
    assert Upstream(pkt, o, ptr);
    var j: nat :| Leads(pkt, o, ptr, j);
    LeadsFurther(pkt, o, ptr, j, o);
    LeadsFurther(pkt, start, ptr, k, o);
    forall fuel: nat ensures Expand(pkt, start, fuel) == Unfinished {
      LeadsToLoop(pkt, start, o, k + 1, j + 1, fuel);
    }
  }

  lemma WalkBad(pkt: seq<Byte>, start: nat, ptr: nat, k: nat, visited: set<int>)
    requires Walked(pkt, start, ptr, k, visited) && ItemAt(pkt, ptr).Bad?
    requires ItemAt(pkt, ptr).fault != NameTooLong && ItemAt(pkt, ptr).fault != JumpLoop
    ensures Meaning(pkt, start, Rejected(ItemAt(pkt, ptr).fault))
  {
    hide Leads;
    hide Along;
    hide Dotted;
    hide Fits;
    ExpandFrom(pkt, start, ptr, k, 1);
  }

  lemma WalkDone(pkt: seq<Byte>, start: nat, ptr: nat, k: nat, visited: set<int>)
    requires Walked(pkt, start, ptr, k, visited) && ItemAt(pkt, ptr).Root?
    ensures Meaning(pkt, start, Accepted(Dotted(Along(pkt, start, k)), CursorAfter(pkt, start)))
  {
    hide Leads;
    hide Along;
    hide Dotted;
    hide Fits;
    ExpandFrom(pkt, start, ptr, k, 1);
    assert Along(pkt, start, k) + [] == Along(pkt, start, k);
    assert StandsFor(pkt, start, Along(pkt, start, k));
  }

  ghost function Offsets(n: nat): (all: set<int>)
    ensures forall o :: o in all <==> 0 <= o < n
  {
    if n == 0 then {} else Offsets(n - 1) + {n - 1}
  }

  /** Where the walk will leave the cursor, once the bookkeeping of the first jump is counted in. */
  ghost predicate CursorKnown(pkt: seq<Byte>, start: nat, ptr: nat, jumped: bool, origin: nat) {
    && start < |pkt| && ptr < |pkt|
    && CursorAfter(pkt, start) == if jumped then origin else CursorAfter(pkt, ptr)
  }

  lemma CursorStep(pkt: seq<Byte>, start: nat, ptr: nat, jumped: bool, origin: nat)
    requires CursorKnown(pkt, start, ptr, jumped, origin)
    ensures var i := ItemAt(pkt, ptr);
      && (i.Text? ==> CursorKnown(pkt, start, i.next, jumped, origin))
      && (i.Pointer? ==> CursorKnown(pkt, start, i.target, true, if jumped then origin else ptr + 2))
      && (pkt[ptr] == 0 ==> i.Root? && CursorAfter(pkt, start) == if jumped then origin else ptr + 1)
  {}

  lemma WalkStart(pkt: seq<Byte>, start: nat)
    requires start < |pkt|
    ensures Walked(pkt, start, start, 0, {}) && Dotted(Along(pkt, start, 0)) == []
    ensures CursorKnown(pkt, start, start, false, start)
  {}

  ghost predicate Reading(pkt: seq<Byte>, start: nat, ptr: nat, k: nat, visited: set<int>, jumped: bool, origin: nat) {
    Walked(pkt, start, ptr, k, visited) && CursorKnown(pkt, start, ptr, jumped, origin)
  }

  /** The compression branch: its checks in the order of the source, and where it continues. */
  method FollowPointer(pkt: seq<Byte>, ptr: nat, visited: set<int>, jumped: bool, origin: nat,
                       ghost start: nat, ghost k: nat)
    returns (fault: Option<Fault>, offset: nat, newOrigin: nat)
    requires Reading(pkt, start, ptr, k, visited, jumped, origin) && 192 <= pkt[ptr]
    ensures fault.Some? ==> Meaning(pkt, start, Rejected(fault.value))
    ensures fault.None? ==> ptr + 1 < |pkt| && offset == (256 * (pkt[ptr] as int) + pkt[ptr + 1]) % 0x4000
    ensures fault.None? ==> offset < |pkt| && offset !in visited
    ensures fault.None? ==> Along(pkt, start, k + 1) == Along(pkt, start, k)
    ensures fault.None? ==> Reading(pkt, start, offset, k + 1, visited + {offset}, true, newOrigin)
  {
    hide Leads;
    hide Expand;
    hide Fits;
    hide CursorAfter;
    hide Meaning;
    hide Along;
    newOrigin := origin;
    if |pkt| <= ptr + 1 {
      WalkBad(pkt, start, ptr, k, visited);
      return Some(TruncatedJump), 0, 0;
    }
    offset := Offset(pkt[ptr], pkt[ptr + 1]);
    if offset in visited {
      WalkLoop(pkt, start, ptr, k, visited);
      return Some(JumpLoop), 0, 0;
    }
    if offset < HEADER_SIZE {
      WalkBad(pkt, start, ptr, k, visited);
      return Some(JumpIntoHeader), 0, 0;
    }
    if |pkt| <= offset {
      WalkBad(pkt, start, ptr, k, visited);
      return Some(JumpBeyondPacket), 0, 0;
    }
    if !jumped {
      newOrigin := ptr + 2;
    }
    WalkPointer(pkt, start, ptr, k, visited);
    CursorStep(pkt, start, ptr, jumped, origin);
    fault := None;
  }

  /** The checks of the label branch. */
  method CheckLabel(pkt: seq<Byte>, ptr: nat, length: nat, ghost start: nat, ghost k: nat, ghost visited: set<int>)
    returns (fault: Option<Fault>)
    requires Walked(pkt, start, ptr, k, visited) && 1 <= pkt[ptr] < 192 && length == |Dotted(Along(pkt, start, k))|
    ensures fault.Some? ==> Meaning(pkt, start, Rejected(fault.value))
    ensures fault.None? ==> pkt[ptr] <= 63 && ptr + 1 + pkt[ptr] < |pkt| && length + pkt[ptr] <= MAX_NAME
  {
    hide Leads;
    hide Expand;
    hide Fits;
    hide CursorAfter;
    hide Meaning;
    hide Along;
    var b := pkt[ptr];
    if 63 < b {
      WalkBad(pkt, start, ptr, k, visited);
      return Some(LabelTooLong);
    }
    if |pkt| <= ptr + 1 + b {
      WalkBad(pkt, start, ptr, k, visited);
      return Some(TruncatedName);
    }
    if MAX_NAME < length + b {
      WalkText(pkt, start, ptr, k, visited);
      return Some(NameTooLong);
    }
    return None;
  }

  lemma WalkLabel(pkt: seq<Byte>, start: nat, ptr: nat, k: nat, visited: set<int>, jumped: bool, origin: nat)
    requires Reading(pkt, start, ptr, k, visited, jumped, origin)
    requires 1 <= pkt[ptr] <= 63 && ptr + 1 + pkt[ptr] < |pkt|
    requires |Dotted(Along(pkt, start, k))| + pkt[ptr] <= MAX_NAME
    ensures var next := ptr + 1 + pkt[ptr];
      && NonEmpty(Along(pkt, start, k))
      && Along(pkt, start, k + 1) == Along(pkt, start, k) + [pkt[ptr + 1..next]]
      && Reading(pkt, start, next, k + 1, visited, jumped, origin)
  {
    hide Leads;
    hide Along;
    hide Dotted;
    hide Fits;
    hide CursorAfter;
    WalkText(pkt, start, ptr, k, visited);
    CursorStep(pkt, start, ptr, jumped, origin);
  }

  /** The label branch: its checks, then the dot and the memcpy. */
  method TakeLabel(pkt: seq<Byte>, ptr: nat, output: array<Byte>, length: nat, ghost start: nat, ghost k: nat,
                   ghost visited: set<int>, ghost jumped: bool, ghost origin: nat)
    returns (fault: Option<Fault>, next: nat, newLength: nat)
    requires Reading(pkt, start, ptr, k, visited, jumped, origin) && 1 <= pkt[ptr] < 192
    requires MAX_NAME + 2 <= output.Length
    requires length <= MAX_NAME + 1 && output[..length] == Dotted(Along(pkt, start, k))
    modifies output
    ensures fault.Some? ==> Meaning(pkt, start, Rejected(fault.value))
    ensures fault.None? ==> ptr < next < |pkt| && Reading(pkt, start, next, k + 1, visited, jumped, origin)
    ensures fault.None? ==> newLength <= MAX_NAME + 1 && output[..newLength] == Dotted(Along(pkt, start, k + 1))
  {
    hide Leads;
    hide Expand;
    hide Fits;
    hide CursorAfter;
    fault := CheckLabel(pkt, ptr, length, start, k, visited);
    next, newLength := ptr + 1 + pkt[ptr], length;
    if fault.Some? {
      return;
    }
    WalkLabel(pkt, start, ptr, k, visited, jumped, origin);
    hide Reading;
    hide Along;
    hide Dotted;
    hide Meaning;
    newLength := AppendLabel(pkt[ptr + 1..next], output, length, Along(pkt, start, k));
  }

  /** `pkt` is the packet received, `start` the cursor on entry; the cursor on return is in the result. The output
      buffer takes the longest accepted text and its terminator. */
  method ReadDNSName(pkt: seq<Byte>, start: nat, output: array<Byte>) returns (r: Outcome)
    requires start < |pkt|
    requires MAX_NAME + 2 <= output.Length
    modifies output
    ensures Meaning(pkt, start, r)
    ensures r.Accepted? ==> |r.name| < output.Length && output[..|r.name|] == r.name && output[|r.name|] == 0
  {
    hide Leads;
    hide Expand;
    hide Fits;
    hide CursorAfter;
    var ptr: nat, origin: nat, jumped, length: nat := start, start, false, 0;
    var visited: set<int> := {};
    ghost var k: nat := 0;
    var fault: Option<Fault> := None;
    WalkStart(pkt, start);
    hide Walked;
    hide Meaning;
    hide Along;
    hide Dotted;
    hide CursorKnown;
    while pkt[ptr] != 0
      invariant ptr < |pkt| && Reading(pkt, start, ptr, k, visited, jumped, origin)
      invariant length <= MAX_NAME + 1 && output[..length] == Dotted(Along(pkt, start, k))
      decreases Offsets(|pkt|) - visited, |pkt| - ptr
    {
      if 192 <= pkt[ptr] {
        var offset;
        fault, offset, origin := FollowPointer(pkt, ptr, visited, jumped, origin, start, k);
        ptr, jumped, visited := offset, true, visited + {offset};
      } else {
        fault, ptr, length := TakeLabel(pkt, ptr, output, length, start, k, visited, jumped, origin);
      }
      if fault.Some? {
        return Rejected(fault.value);
      }
      k := k + 1;
    }
    CursorStep(pkt, start, ptr, jumped, origin);
    WalkDone(pkt, start, ptr, k, visited);
    output[length] := 0;
    return Accepted(output[..length], if jumped then origin else ptr + 1);
  }

  /** The dot and the memcpy of one label. */
  method AppendLabel(text: Label, output: array<Byte>, length: nat, ghost ls: seq<Label>) returns (newLength: nat)
    requires 1 <= |text| && length + |text| <= MAX_NAME && MAX_NAME + 2 <= output.Length
    requires output[..length] == Dotted(ls) && NonEmpty(ls)
    modifies output
    ensures newLength <= MAX_NAME + 1
    ensures output[..newLength] == Dotted(ls + [text])
  {
    hide *;
    DottedEmpty(ls);
    DottedAppend(ls, text);
    newLength := length;
    if newLength != 0 {
      output[newLength] := DOT;
      newLength := newLength + 1;
      assert output[..newLength] == output[..length] + [DOT] == Dotted(ls) + [DOT];
    }
    Memcpy(output, newLength, text);
    newLength := newLength + |text|;
  }

  method Memcpy(dst: array<Byte>, to: nat, src: seq<Byte>)
    requires to + |src| <= dst.Length
    modifies dst
    ensures dst[..to + |src|] == old(dst[..to]) + src
  {
    for i := 0 to |src|
      invariant dst[..to + i] == old(dst[..to]) + src[..i]
    {
      dst[to + i] := src[i];
    }
  }
}
