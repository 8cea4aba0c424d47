/** The invariant of the two-thread variant and its proof, thread by thread. */
module TwoThreadSafe {
  import opened Common
  import opened Sender
  import opened SlidingWindow
  import opened TwoThread

  // ------------------------------------------------ window and credits

  function InHand2(s: SendPc): nat {
    if s.Gone? then s.inHand else Ind(s.Picked? || s.Measured? || s.Launched? || (s.Copying? && s.first))
  }

  predicate HasCredit(p: App) { !p.Outside? && !p.Counted? }

  predicate HasNumber(p: App) { p.Headed? || p.Written? }

  function InRelease(q: RecvPc): int { if q.Releasing? then q.slots else 0 }

  /** The right edge of the window, while RecvThread moves it and otherwise. */
  predicate RightEdge(y: Duo) {
    var v := y.v;
    match y.rcv
    case Admitted(a, _) =>
      a in y.acks && v.base < a.seqNo && v.receiverWindow == a.wnd && v.lastReleased <= a.seqNo + Min(v.window, a.wnd)
    case Moved(a, _) =>
      v.base == a.seqNo && v.receiverWindow == a.wnd && v.lastReleased <= a.seqNo + Min(v.window, a.wnd)
    case Cleared(a, _) =>
      v.base == a.seqNo && v.receiverWindow == a.wnd && v.lastReleased <= a.seqNo + Min(v.window, a.wnd)
    case _ =>
      && v.lastReleased == v.base + Min(v.window, v.receiverWindow)
      && (y.rcv.Accepted? || y.rcv.Narrowed? ==> y.rcv.ack in y.acks && v.base < y.rcv.ack.seqNo)
  }

  function Latest(over: Option<nat>, own: nat): nat { if over.Some? then over.value else own }

  /** effectiveWindow holds what was last written to it. */
  predicate Tracked(y: Duo) {
    match y.rcv
    case Narrowed(a, over) => y.v.effectiveWindow == Latest(over, Min(y.v.window, a.wnd))
    case Admitted(a, over) => y.v.effectiveWindow == Latest(over, Min(y.v.window, a.wnd))
    case Moved(a, over) => y.v.effectiveWindow == Latest(over, Min(y.v.window, a.wnd))
    case Cleared(a, over) => y.v.effectiveWindow == Latest(over, Min(y.v.window, a.wnd))
    case _ => true
  }

  /** Window and credit accounting, with what each thread has in its hands. */
  predicate Books(y: Duo) {
    var v := y.v;
    && v.Shape()
    && v.base <= SentUpTo(y)
    && v.full + v.nextToSend + InHand2(y.snd) + Ind(y.app.Counted?) == v.nextSeq
    && v.empty + Ind(HasCredit(y.app)) + InRelease(y.rcv) == v.lastReleased - v.nextSeq
    && 0 <= InRelease(y.rcv)
    && v.lastReleased <= v.base + v.window
    && |y.submitted| == v.nextSeq + Ind(HasNumber(y.app))
    && RightEdge(y) && Tracked(y)
  }

  // ------------------------------------------------ the ring

  /** The slot of packet k holds it. While packet n is being written, its own payload is missing, and the size of the
      packet it replaces is gone. */
  predicate CellFor(y: Duo, k: nat)
    requires y.v.Shape() && k < |y.submitted|
  {
    var c, n := y.v.At(k), y.v.nextSeq;
    && c.seqNo == Defined(k)
    && ((y.app.Headed? && k == n) || y.submitted[k] <= c.buf)
    && ((y.app.Sized? && k + y.v.window == n) || c.size == |y.submitted[k]|)
  }

  ghost predicate Cells(y: Duo)
    requires y.v.Shape()
  {
    forall k: nat :: k < |y.submitted| <= k + y.v.window ==> CellFor(y, k)
  }

  predicate Fits(c: Cell) { |c.buf| == MAX_PAYLOAD && c.size <= MAX_PAYLOAD }

  ghost predicate Memory(y: Duo)
    requires y.v.Shape()
  {
    && (forall i :: 0 <= i < y.v.window ==> Fits(y.v.ring[i]))
    && (forall i :: |y.submitted| <= i < y.v.window ==> y.v.ring[i].seqNo == Undefined)
    && (forall k :: 0 <= k < |y.submitted| ==> |y.submitted[k]| <= MAX_PAYLOAD)
  }

  /** Lengths read and not yet used. */
  predicate Lengths(y: Duo)
    requires y.v.Shape()
  {
    && (y.app.Sized? ==> |y.app.data| <= MAX_PAYLOAD && y.v.At(y.v.nextSeq).size == |y.app.data|)
    && (y.app.Headed? ==> y.v.nextSeq < |y.submitted| && y.app.done <= |y.submitted[y.v.nextSeq]|
                          && y.submitted[y.v.nextSeq][..y.app.done] <= y.v.At(y.v.nextSeq).buf)
    && (y.snd.Measured? ==> y.v.nextToSend < |y.submitted| && y.snd.len == |y.submitted[y.v.nextToSend]|)
    && (y.snd.Gauged? || y.snd.Counting? || y.snd.Charged? || y.snd.Resending? ==> y.snd.len <= MAX_PAYLOAD)
    && (y.rcv.Sizing? || y.rcv.Tallying? || y.rcv.Firing? ==> y.rcv.len <= MAX_PAYLOAD)
  }

  ghost predicate Ring2(y: Duo)
    requires y.v.Shape()
  {
    Cells(y) && Memory(y) && Lengths(y)
  }

  /** A first transmission copies packet nextToSend. */
  predicate FirstCopy(y: Duo, c: Copy) {
    && c.b == y.v.nextToSend < |y.submitted| && c.head == Defined(c.b) && c.len == |y.submitted[c.b]|
    && c.got <= y.submitted[c.b]
  }

  /** A resend that began clean copies a packet sent before, as long as that packet keeps its slot. */
  predicate CleanCopy(y: Duo, c: Copy)
    requires y.v.Shape()
  {
    && c.head.Defined? && c.head.value < SentUpTo(y) <= |y.submitted|
    && SlotOf(c.head.value, y.v.window) == SlotOf(c.b, y.v.window)
    && c.len == |y.submitted[c.head.value]|
    && (|y.submitted| <= c.head.value + y.v.window ==> c.got <= y.submitted[c.head.value])
  }

  predicate SndCopy(y: Duo)
    requires y.v.Shape()
  {
    y.snd.Copying? ==> if y.snd.first then FirstCopy(y, y.snd.c) else y.snd.c.clean ==> CleanCopy(y, y.snd.c)
  }

  predicate RcvCopy(y: Duo)
    requires y.v.Shape()
  {
    y.rcv.Flying? && y.rcv.c.clean ==> CleanCopy(y, y.rcv.c)
  }

  // ------------------------------------------------ the channel and the receiver

  /** A datagram is a packet submitted and sent before, unaltered. */
  predicate True2(f: Frame, submitted: seq<Payload>, below: nat) {
    && f.seqNo.Defined? && f.seqNo.value < below <= |submitted|
    && f.payload == submitted[f.seqNo.value]
  }

  /** What may be on the wire: such packets, and datagrams whose number is below base. Those lost their slot while
      sendto was copying it, and the receiver is past them. */
  predicate Carried(f: Frame, submitted: seq<Payload>, below: nat, base: nat) {
    && f.seqNo.Defined? && f.seqNo.value < below <= |submitted|
    && (f.payload == submitted[f.seqNo.value] || f.seqNo.value < base)
  }

  ghost predicate Wire2(y: Duo) {
    forall t :: 0 <= t < |y.v.wire| ==> Carried(y.v.wire[t], y.submitted, SentUpTo(y), y.v.base)
  }

  ghost predicate Receiver2(y: Duo) {
    && |y.r.delivered| <= SentUpTo(y) <= |y.submitted|
    && y.r.delivered == y.submitted[..|y.r.delivered|]
    && forall k :: k in y.r.held ==> k < SentUpTo(y) && (y.r.held[k] == y.submitted[k] || k < |y.r.delivered|)
  }

  ghost predicate Acks2(y: Duo) {
    && y.v.base <= |y.r.delivered|
    && y.v.base + y.v.receiverWindow <= y.r.edge
    && (forall a :: a in y.acks ==> a.seqNo <= |y.r.delivered| && Edge(a) <= y.r.edge)
    && (!y.rcv.Admitted? ==> forall a :: a in y.acks && y.v.base < a.seqNo ==> y.v.base + y.v.receiverWindow <= Edge(a))
    && (forall a, b :: a in y.acks && b in y.acks && a.seqNo < b.seqNo ==> Edge(a) <= Edge(b))
  }

  ghost predicate Safe2(y: Duo) {
    Books(y) && Ring2(y) && SndCopy(y) && RcvCopy(y) && Wire2(y) && Receiver2(y) && Acks2(y)
  }

  // ------------------------------------------------ steps that leave ring and wire alone

  lemma RingSame(y: Duo, z: Duo)
    requires y.v.Shape() && z.v.Shape() && Cells(y) && Memory(y)
    requires z.v.ring == y.v.ring && z.v.window == y.v.window && z.submitted == y.submitted
    requires y.app.Headed? ==> z.app.Headed? && z.v.nextSeq == y.v.nextSeq
    requires y.app.Sized? ==> z.app.Sized? && z.v.nextSeq == y.v.nextSeq
    ensures Cells(z) && Memory(z)
  {
    forall k: nat | k < |z.submitted| <= k + z.v.window ensures CellFor(z, k) {
      assert CellFor(y, k);
    }
  }

  predicate Grown(y: Duo, z: Duo) {
    && y.submitted <= z.submitted && SentUpTo(y) <= SentUpTo(z) <= |z.submitted| && y.v.base <= z.v.base
    && z.v.window == y.v.window
  }

  lemma WireSame(y: Duo, z: Duo)
    requires Wire2(y) && z.v.wire == y.v.wire && Grown(y, z)
    ensures Wire2(z)
  {
    forall t | 0 <= t < |z.v.wire| ensures Carried(z.v.wire[t], z.submitted, SentUpTo(z), z.v.base) {
      assert Carried(y.v.wire[t], y.submitted, SentUpTo(y), y.v.base);
    }
  }

  lemma WireMore(y: Duo, z: Duo, f: Frame)
    requires Wire2(y) && z.v.wire == y.v.wire + [f] && Grown(y, z)
    requires Carried(f, z.submitted, SentUpTo(z), z.v.base)
    ensures Wire2(z)
  {
    forall t | 0 <= t < |z.v.wire| ensures Carried(z.v.wire[t], z.submitted, SentUpTo(z), z.v.base) {
      if t < |y.v.wire| {
        assert Carried(y.v.wire[t], y.submitted, SentUpTo(y), y.v.base);
      }
    }
  }

  /** What other threads do never spoils a copy. */
  lemma CopyKept(y: Duo, z: Duo, c: Copy)
    requires y.v.Shape() && z.v.Shape() && Grown(y, z)
    ensures CleanCopy(y, c) ==> CleanCopy(z, c)
    ensures FirstCopy(y, c) && z.v.nextToSend == y.v.nextToSend ==> FirstCopy(z, c)
  {}

  lemma SndCopySame(y: Duo, z: Duo)
    requires y.v.Shape() && z.v.Shape() && Grown(y, z) && SndCopy(y)
    requires z.snd == y.snd && z.v.nextToSend == y.v.nextToSend
    ensures SndCopy(z)
  {
    if y.snd.Copying? {
      CopyKept(y, z, y.snd.c);
    }
    hide CleanCopy;
    hide FirstCopy;
  }

  lemma RcvCopySame(y: Duo, z: Duo)
    requires y.v.Shape() && z.v.Shape() && Grown(y, z) && RcvCopy(y)
    requires z.rcv.Flying? ==> y.rcv == z.rcv
    ensures RcvCopy(z)
  {
    if y.rcv.Flying? {
      CopyKept(y, z, y.rcv.c);
    }
    hide CleanCopy;
  }

  // ------------------------------------------------ Send

  lemma WithElsewhere(v: Vars, b: nat, c: Cell, k: nat)
    requires v.Shape() && k != b && k < b + v.window && b < k + v.window
    ensures v.With(b, c).Shape() && v.With(b, c).At(k) == v.At(k)
  {
    if SlotOf(k, v.window) == SlotOf(b, v.window) {
      SameSlot(k, b, v.window);
    }
  }

  /** The three writes of Send into the slot of packet n keep every other packet that still has its slot. */
  lemma SizeCells(y: Duo, data: Payload)
    requires Books(y) && Cells(y) && AppCan(y, SetSize(data))
    ensures Cells(AppStep(y, SetSize(data)))
  {
    var z := AppStep(y, SetSize(data));
    var n := y.v.nextSeq;
    forall k: nat | k < |z.submitted| <= k + z.v.window ensures CellFor(z, k) {
      assert CellFor(y, k);
      if k + y.v.window != n {
        WithElsewhere(y.v, n, z.v.At(n), k);
      } else {
        SlotPeriod(k, y.v.window);
      }
    }
  }

  lemma HeaderCells(y: Duo)
    requires Books(y) && Cells(y) && Lengths(y) && AppCan(y, SetHeader)
    ensures Cells(AppStep(y, SetHeader))
  {
    var z := AppStep(y, SetHeader);
    var n := y.v.nextSeq;
    forall k: nat | k < |z.submitted| <= k + z.v.window ensures CellFor(z, k) {
      if k != n {
        assert CellFor(y, k);
        WithElsewhere(y.v, n, z.v.At(n), k);
      }
    }
  }

  lemma PayloadCells(y: Duo, n: nat)
    requires Books(y) && Cells(y) && AppCan(y, CopyIn(n))
    ensures Cells(AppStep(y, CopyIn(n)))
  {
    var z := AppStep(y, CopyIn(n));
    var m := y.v.nextSeq;
    assert CellFor(y, m);
    forall k: nat | k < |z.submitted| <= k + z.v.window ensures CellFor(z, k) {
      assert CellFor(y, k);
      if k != m {
        WithElsewhere(y.v, m, z.v.At(m), k);
      }
    }
  }

  /** The payload is complete when all of its bytes are copied. */
  lemma CompleteCells(y: Duo)
    requires Books(y) && Cells(y) && Lengths(y) && AppCan(y, EndCopy)
    ensures Cells(AppStep(y, EndCopy))
  {
    var z := AppStep(y, EndCopy);
    var d := y.submitted[y.v.nextSeq];
    assert d[..|d|] == d;
    forall k: nat | k < |z.submitted| <= k + z.v.window ensures CellFor(z, k) {
      assert CellFor(y, k);
    }
  }

  lemma WriteMemory(y: Duo, p: AppAct)
    requires Books(y) && Memory(y) && Lengths(y) && AppCan(y, p)
    requires p.SetSize? || p.SetHeader? || p.CopyIn?
    ensures Memory(AppStep(y, p))
  {
    var n := y.v.nextSeq;
    if n < y.v.window {
      SmallSlot(n, y.v.window);
    }
    hide SlotOf;
  }

  lemma AppBooks(y: Duo, p: AppAct)
    requires Books(y) && AppCan(y, p)
    ensures Books(AppStep(y, p))
  {
    hide SlotOf;
    hide Copied;
  }

  lemma AppLengths(y: Duo, p: AppAct)
    requires Books(y) && Ring2(y) && Receiver2(y) && AppCan(y, p)
    ensures Lengths(AppStep(y, p))
  {
    if p.CopyIn? {
      assert Fits(y.v.At(y.v.nextSeq));
    }
    hide SlotOf;
    hide Cells;
    hide Copied;
  }

  lemma AppSafe(y: Duo, p: AppAct)
    requires Safe2(y) && AppCan(y, p)
    ensures Safe2(AppStep(y, p))
  {
    var z := AppStep(y, p);
    AppBooks(y, p);
    AppLengths(y, p);
    match p {
      case SetSize(data) => SizeCells(y, data); WriteMemory(y, p);
      case SetHeader => HeaderCells(y); WriteMemory(y, p);
      case CopyIn(n) => PayloadCells(y, n); WriteMemory(y, p);
      case EndCopy => CompleteCells(y); AppMemory(y, p);
      case _ => RingSame(y, z);
    }
    AppRest(y, p);
    hide AppStep;
    hide SndCopy;
    hide RcvCopy;
    hide Books;
    hide Cells;
    hide Memory;
    hide Lengths;
    hide Wire2;
    hide Receiver2;
    hide Acks2;
  }

  lemma AppGrows(y: Duo, p: AppAct)
    requires Books(y) && SentUpTo(y) <= |y.submitted| && AppCan(y, p)
    ensures var z := AppStep(y, p);
      && Grown(y, z) && z.snd == y.snd && z.v.nextToSend == y.v.nextToSend && z.v.wire == y.v.wire
      && z.r == y.r && z.acks == y.acks && z.v.base == y.v.base && z.v.receiverWindow == y.v.receiverWindow
      && SentUpTo(z) == SentUpTo(y)
      && (z.rcv.Flying? ==> y.rcv == z.rcv) && (z.rcv.Admitted? <==> y.rcv.Admitted?)
  {
    hide SlotOf;
    hide Copied;
  }

  lemma AppMemory(y: Duo, p: AppAct)
    requires Safe2(y) && AppCan(y, p) && !p.SetSize? && !p.SetHeader? && !p.CopyIn?
    ensures Memory(AppStep(y, p))
  {}

  lemma AppRest(y: Duo, p: AppAct)
    requires Safe2(y) && AppCan(y, p)
    ensures var z := AppStep(y, p); Wire2(z) && Receiver2(z) && Acks2(z) && SndCopy(z) && RcvCopy(z)
  {
    AppGrows(y, p);
    var z := AppStep(y, p);
    hide AppStep;
    hide AppCan;
    hide Ring2;
    hide Books;
    WireSame(y, z);
    SndCopySame(y, z);
    RcvCopySame(y, z);
    hide Wire2;
    hide SndCopy;
    hide RcvCopy;
  }

  // ------------------------------------------------ a copy of a slot

  /** No later packet uses the slot that LastIn names a packet for, and one that names none was never used. */
  lemma {:induction false} LastInIsLast(i: nat, n: nat, w: nat)
    requires i < w
    ensures match LastIn(i, n, w)
      case Some(k) => n <= k + w
      case None => n <= i
  {
    if n > 0 && SlotOf(n - 1, w) != i {
      LastInIsLast(i, n - 1, w);
      var k := LastIn(i, n - 1, w);
      if k.Some? {
        SlotPeriod(k.value, w);
      } else {
        SmallSlot(i, w);
      }
      hide SlotOf;
    }
  }

  /** What sendto copies from the slot of b with length `len` is a packet sent before, unaltered, if and only if the
      last packet put into that slot has been sent before and `len` is its length. */
  lemma CopyExact(y: Duo, b: nat, len: nat)
    requires Books(y) && Ring2(y) && Receiver2(y) && len <= MAX_PAYLOAD
    ensures True2(FrameOf(y.v.At(b), len), y.submitted, SentUpTo(y)) <==> CopySafe(y, b, len)
  {
    var i := SlotOf(b, y.v.window);
    LastInIsLast(i, |y.submitted|, y.v.window);
    var k := LastIn(i, |y.submitted|, y.v.window);
    hide SlotOf;
    hide LastIn;
    assert Fits(y.v.ring[i]);
    if k.Some? {
      assert CellFor(y, k.value);
    }
  }

  lemma BeginClean(y: Duo, b: nat, len: nat)
    requires Books(y) && Ring2(y) && Receiver2(y)
    ensures Begun(y, b, len).clean ==> CleanCopy(y, Begun(y, b, len))
  {
    var i := SlotOf(b, y.v.window);
    LastInIsLast(i, |y.submitted|, y.v.window);
    var k := LastIn(i, |y.submitted|, y.v.window);
    hide SlotOf;
    hide LastIn;
    if k.Some? {
      assert CellFor(y, k.value);
    }
  }

  /** More bytes from a slot that still is the packet's. */
  lemma FurtherBytes(y: Duo, c: Copy, n: nat, k: nat)
    requires y.v.Shape() && |c.got| + n <= Whole(y, c) && k < |y.submitted|
    requires c.len == |y.submitted[k]| && c.got <= y.submitted[k] <= y.v.At(c.b).buf
    ensures Further(y, c, n).got <= y.submitted[k]
  {
    var buf := y.v.At(c.b).buf;
    hide SlotOf;
    assert buf[|c.got|..|c.got| + n] == y.submitted[k][|c.got|..|c.got| + n];
  }

  lemma FurtherClean(y: Duo, c: Copy, n: nat)
    requires Books(y) && Cells(y) && CleanCopy(y, c) && |c.got| + n <= Whole(y, c)
    ensures CleanCopy(y, Further(y, c, n))
  {
    var k := c.head.value;
    if |y.submitted| <= k + y.v.window {
      assert CellFor(y, k);
      FurtherBytes(y, c, n, k);
    }
    hide SlotOf;
    hide Cells;
  }

  lemma FurtherFirst(y: Duo, c: Copy, n: nat)
    requires Books(y) && Cells(y) && FirstCopy(y, c) && y.v.base <= c.b < y.v.nextSeq && |c.got| + n <= Whole(y, c)
    ensures FirstCopy(y, Further(y, c, n))
  {
    assert CellFor(y, c.b);
    FurtherBytes(y, c, n, c.b);
    hide SlotOf;
    hide Cells;
  }

  /** A resend that began clean and has copied everything: a packet sent before, or one the receiver is past. */
  lemma CleanCarried(y: Duo, c: Copy)
    requires Books(y) && Memory(y) && CleanCopy(y, c) && |c.got| == Whole(y, c)
    ensures Carried(Frame(c.head, c.got), y.submitted, SentUpTo(y), y.v.base)
  {
    assert Fits(y.v.At(c.b));
    hide SlotOf;
  }

  lemma FirstCarried(y: Duo, c: Copy)
    requires Books(y) && Memory(y) && FirstCopy(y, c) && |c.got| == Whole(y, c)
    ensures c.got == y.submitted[y.v.nextToSend] && c.head == Defined(y.v.nextToSend)
  {
    assert Fits(y.v.At(c.b));
    hide SlotOf;
  }

  // ------------------------------------------------ SendThread

  /** What SendThread leaves alone. */
  lemma SndFrame(y: Duo, s: SndAct)
    requires y.v.Shape() && SndCan(y, s)
    ensures var z := SndStep(y, s);
      && z.v == y.v.(full := z.v.full, nextToSend := z.v.nextToSend, retx := z.v.retx, quit := z.v.quit,
                     wire := z.v.wire)
      && z == y.(v := z.v, snd := z.snd)
  {
    hide SlotOf;
    hide CopySafe;
  }

  lemma SndBooks(y: Duo, s: SndAct)
    requires Books(y) && SndCan(y, s)
    ensures Books(SndStep(y, s)) && Grown(y, SndStep(y, s))
  {
    SndFrame(y, s);
    var z := SndStep(y, s);
    hide SlotOf;
    hide CopySafe;
    assert SentUpTo(y) <= SentUpTo(z);
    assert z.v.full + z.v.nextToSend + InHand2(z.snd) == y.v.full + y.v.nextToSend + InHand2(y.snd);
    hide SndStep;
    hide SndCan;
  }

  lemma SndLengths(y: Duo, s: SndAct)
    requires Books(y) && Ring2(y) && Receiver2(y) && SndCan(y, s)
    ensures Lengths(SndStep(y, s))
  {
    SndFrame(y, s);
    if s.Measure? {
      assert CellFor(y, y.v.nextToSend);
    }
    if s.Gauge? {
      assert Fits(y.v.At(y.snd.b));
    }
    hide SlotOf;
    hide CopySafe;
    hide Cells;
    hide Memory;
    hide Books;
    hide Receiver2;
  }

  lemma SndCopies(y: Duo, s: SndAct)
    requires Safe2(y) && SndCan(y, s)
    ensures SndCopy(SndStep(y, s))
  {
    if s.Start? {
      if y.snd.Measured? {
        assert CellFor(y, y.v.nextToSend);
      } else {
        BeginClean(y, y.snd.b, y.snd.len);
      }
    } else if s.CopyMore? {
      if y.snd.first {
        FurtherFirst(y, y.snd.c, s.n);
      } else if y.snd.c.clean {
        FurtherClean(y, y.snd.c, s.n);
      }
    }
    SndFrame(y, s);
    hide SlotOf;
    hide CopySafe;
    hide Cells;
    hide Memory;
    hide Wire2;
    hide Receiver2;
    hide Acks2;
  }

  lemma SndWire(y: Duo, s: SndAct)
    requires Safe2(y) && SndCan(y, s) && Timely(y, OfSnd(s))
    ensures Wire2(SndStep(y, s))
  {
    var z := SndStep(y, s);
    SndBooks(y, s);
    SndFrame(y, s);
    if s == End(true) {
      var c := y.snd.c;
      if y.snd.first {
        FirstCarried(y, c);
      } else {
        CleanCarried(y, c);
      }
      WireMore(y, z, Frame(c.head, c.got));
    } else {
      WireSame(y, z);
    }
    hide SlotOf;
    hide CopySafe;
    hide Books;
    hide Ring2;
    hide Wire2;
  }

  lemma SndRest(y: Duo, s: SndAct)
    requires Safe2(y) && SndCan(y, s)
    ensures var z := SndStep(y, s); Receiver2(z) && Acks2(z) && Cells(z) && Memory(z) && RcvCopy(z)
  {
    SndFrame(y, s);
    SndBooks(y, s);
    var z := SndStep(y, s);
    hide SndStep;
    hide SndCan;
    RingSame(y, z);
    RcvCopySame(y, z);
    hide Cells;
    hide Memory;
    hide Wire2;
    hide Books;
    hide SentUpTo;
    hide RcvCopy;
    hide SndCopy;
  }

  lemma SndSafe(y: Duo, s: SndAct)
    requires Safe2(y) && SndCan(y, s) && Timely(y, OfSnd(s))
    ensures Safe2(SndStep(y, s))
  {
    SndBooks(y, s);
    SndLengths(y, s);
    SndCopies(y, s);
    SndWire(y, s);
    SndRest(y, s);
    hide SndStep;
    hide Books;
    hide Cells;
    hide Memory;
    hide Lengths;
    hide SndCopy;
    hide RcvCopy;
    hide Wire2;
    hide Receiver2;
    hide Acks2;
  }

  // ------------------------------------------------ RecvThread

  /** What RecvThread leaves alone. */
  lemma RcvFrame(y: Duo, q: RcvAct)
    requires y.v.Shape() && RcvCan(y, q)
    ensures var z := RcvStep(y, q);
      && z.v == y.v.(base := z.v.base, lastReleased := z.v.lastReleased, dupAck := z.v.dupAck, retx := z.v.retx,
                     receiverWindow := z.v.receiverWindow, effectiveWindow := z.v.effectiveWindow, empty := z.v.empty,
                     quit := z.v.quit, wire := z.v.wire)
      && z == y.(v := z.v, rcv := z.rcv)
  {
    hide SlotOf;
    hide CopySafe;
  }

  predicate Moves(q: RcvAct) { q.Hear? || q.Narrow? || q.Admit? || q.Move? || q.Clear? || q.Settle? || q.Release? }

  /** The steps on an ACK above base. */
  lemma MoveBooks(y: Duo, q: RcvAct)
    requires Books(y) && Acks2(y) && |y.r.delivered| <= SentUpTo(y)
    requires RcvCan(y, q) && Moves(q) && (q.Settle? ==> WindowKept(y))
    ensures Books(RcvStep(y, q))
  {
    RcvFrame(y, q);
    hide SlotOf;
    hide CopySafe;
  }

  /** The other steps change neither window nor credits. */
  lemma RcvIdle(y: Duo, q: RcvAct)
    requires y.v.Shape() && RcvCan(y, q) && !Moves(q)
    ensures var z := RcvStep(y, q);
      && z.v == y.v.(dupAck := z.v.dupAck, retx := z.v.retx, quit := z.v.quit, wire := z.v.wire)
      && z == y.(v := z.v, rcv := z.rcv)
      && (z.rcv.Listening? || z.rcv.Sizing? || z.rcv.Tallying? || z.rcv.Firing? || z.rcv.Flying? || z.rcv.Left?)
      && (y.rcv.Listening? || y.rcv.Third? || y.rcv.Sizing? || y.rcv.Tallying? || y.rcv.Firing? || y.rcv.Flying?)
  {
    hide SlotOf;
    hide CopySafe;
  }

  lemma RcvBooks(y: Duo, q: RcvAct)
    requires Books(y) && Acks2(y) && |y.r.delivered| <= SentUpTo(y) && RcvCan(y, q) && (q.Settle? ==> WindowKept(y))
    ensures Books(RcvStep(y, q))
  {
    if Moves(q) {
      MoveBooks(y, q);
    } else {
      RcvIdle(y, q);
    }
    hide RcvStep;
    hide RcvCan;
    hide Acks2;
  }

  lemma RcvGrows(y: Duo, q: RcvAct)
    requires Books(y) && SentUpTo(y) <= |y.submitted| && RcvCan(y, q)
    ensures Grown(y, RcvStep(y, q))
  {
    RcvFrame(y, q);
    if !Moves(q) {
      RcvIdle(y, q);
    }
    hide SlotOf;
    hide CopySafe;
  }

  lemma RcvLengths(y: Duo, q: RcvAct)
    requires Books(y) && Ring2(y) && RcvCan(y, q)
    ensures Lengths(RcvStep(y, q))
  {
    RcvFrame(y, q);
    if q.Size? {
      assert Fits(y.v.At(y.v.base));
    }
    hide SlotOf;
    hide CopySafe;
    hide Cells;
    hide Memory;
    hide Books;
  }

  lemma RcvCopies(y: Duo, q: RcvAct)
    requires Safe2(y) && RcvCan(y, q)
    ensures RcvCopy(RcvStep(y, q))
  {
    if q.StartFast? {
      BeginClean(y, y.v.base, y.rcv.len);
    } else if q.CopyFast? {
      if y.rcv.c.clean {
        FurtherClean(y, y.rcv.c, q.n);
      }
    }
    hide SlotOf;
    hide CopySafe;
    hide Cells;
    hide Memory;
    hide Books;
    hide Wire2;
    hide Receiver2;
    hide Acks2;
  }

  lemma RcvWire(y: Duo, q: RcvAct)
    requires Safe2(y) && RcvCan(y, q) && Timely(y, OfRcv(q))
    ensures Wire2(RcvStep(y, q))
  {
    var z := RcvStep(y, q);
    RcvFrame(y, q);
    RcvGrows(y, q);
    if q == EndFast(true) {
      CleanCarried(y, y.rcv.c);
      WireMore(y, z, Frame(y.rcv.c.head, y.rcv.c.got));
    } else {
      WireSame(y, z);
    }
    hide SlotOf;
    hide CopySafe;
    hide Books;
    hide Ring2;
    hide Wire2;
  }

  lemma RcvAcks(y: Duo, q: RcvAct)
    requires Books(y) && Acks2(y) && RcvCan(y, q)
    ensures Acks2(RcvStep(y, q))
  {
    if !Moves(q) {
      RcvIdle(y, q);
    }
    hide SlotOf;
    hide CopySafe;
  }

  lemma RcvRest(y: Duo, q: RcvAct)
    requires Safe2(y) && RcvCan(y, q)
    ensures var z := RcvStep(y, q); Receiver2(z) && Cells(z) && Memory(z) && SndCopy(z)
  {
    RcvFrame(y, q);
    RcvGrows(y, q);
    var z := RcvStep(y, q);
    hide RcvStep;
    hide RcvCan;
    RingSame(y, z);
    SndCopySame(y, z);
    hide Cells;
    hide Memory;
    hide Wire2;
    hide Books;
    hide Acks2;
    hide SndCopy;
    hide RcvCopy;
  }

  lemma RcvSafe(y: Duo, q: RcvAct)
    requires Safe2(y) && RcvCan(y, q) && Timely(y, OfRcv(q))
    ensures Safe2(RcvStep(y, q))
  {
    RcvBooks(y, q);
    RcvLengths(y, q);
    RcvCopies(y, q);
    RcvWire(y, q);
    RcvAcks(y, q);
    RcvRest(y, q);
    hide RcvStep;
    hide Books;
    hide Cells;
    hide Memory;
    hide Lengths;
    hide SndCopy;
    hide RcvCopy;
    hide Wire2;
    hide Receiver2;
    hide Acks2;
  }

  // ------------------------------------------------ channel and receiver

  lemma NetFrame(y: Duo, n: NetAct)
    requires NetCan(y, n)
    ensures var z := NetStep(y, n); z == y.(r := z.r, acks := z.acks) && y.acks <= z.acks
  {}

  lemma NetReceiver(y: Duo, n: NetAct)
    requires Wire2(y) && Receiver2(y) && Acks2(y) && NetCan(y, n)
    ensures Receiver2(NetStep(y, n)) && Acks2(NetStep(y, n))
  {
    if n.Reach? {
      assert Carried(y.v.wire[n.t], y.submitted, SentUpTo(y), y.v.base);
    }
    hide Wire2;
  }

  lemma NetSafe(y: Duo, n: NetAct)
    requires Safe2(y) && NetCan(y, n)
    ensures Safe2(NetStep(y, n))
  {
    NetReceiver(y, n);
    NetFrame(y, n);
    var z := NetStep(y, n);
    hide NetStep;
    RingSame(y, z);
    assert Lengths(z);
    assert Books(z);
    hide Books;
    hide Cells;
    hide Memory;
    hide Lengths;
    WireSame(y, z);
    SndCopySame(y, z);
    RcvCopySame(y, z);
    hide SndCopy;
    hide RcvCopy;
    hide Wire2;
    hide Receiver2;
    hide Acks2;
  }

  // ------------------------------------------------ over runs

  lemma Step2Safe(y: Duo, a: Act)
    requires Safe2(y) && Can(y, a) && Timely(y, a)
    ensures Safe2(Step2(y, a))
  {
    hide Safe2;
    hide Timely;
    match a
    case OfApp(p) => AppSafe(y, p);
    case OfSnd(s) => SndSafe(y, s);
    case OfRcv(q) => RcvSafe(y, q);
    case OfNet(n) => NetSafe(y, n);
  }

  lemma OpeningSafe(window: nat, wnd: nat)
    requires 1 <= window
    ensures Safe2(Opening(window, wnd))
  {}

  lemma {:induction false} Run2Safe(y: Duo, acts: seq<Act>)
    requires y.v.Shape() && Safe2(y) && Run2(y, acts).Some? && AllTimely(y, acts)
    ensures Safe2(Run2(y, acts).value)
    decreases |acts|
  {
    hide Step2;
    hide Can;
    hide Timely;
    hide Safe2;
    if acts != [] {
      var n := |acts| - 1;
      Run2Safe(y, acts[..n]);
      Step2Safe(Run2(y, acts[..n]).value, acts[n]);
    }
  }

  /** What a caller sees of the invariant. */
  ghost predicate Kept(y: Duo) {
    var v := y.v;
    && v.Shape()
    && v.base <= SentUpTo(y) <= v.nextSeq <= v.lastReleased <= v.base + v.window
    && (y.rcv.Listening? ==> v.lastReleased == v.base + Min(v.window, v.receiverWindow))
    && (y.rcv.Listening? && y.app.Outside? ==> v.empty == v.lastReleased - v.nextSeq)
    && (y.snd.Waiting? && y.app.Outside? ==> v.full == v.nextSeq - v.nextToSend)
    && v.empty <= v.window && v.full <= v.window
    && v.nextSeq <= |y.submitted|
    && (forall k: nat :: v.base <= k < v.nextSeq ==> v.At(k).seqNo == Defined(k) && y.submitted[k] <= v.At(k).buf)
    && (forall t :: 0 <= t < |v.wire| ==> Carried(v.wire[t], y.submitted, v.nextSeq, v.base))
    && y.r.delivered <= y.submitted
    && (y.app.Outside? && v.nextSeq <= v.base ==> y.r.delivered == y.submitted && v.base == v.nextSeq)
  }

  lemma SafeIsKept(y: Duo)
    requires Safe2(y)
    ensures Kept(y)
  {
    hide SlotOf;
    forall k: nat | y.v.base <= k < y.v.nextSeq
      ensures y.v.At(k).seqNo == Defined(k) && y.submitted[k] <= y.v.At(k).buf
    {
      assert CellFor(y, k);
    }
    forall t | 0 <= t < |y.v.wire| ensures Carried(y.v.wire[t], y.submitted, y.v.nextSeq, y.v.base) {
      assert Carried(y.v.wire[t], y.submitted, SentUpTo(y), y.v.base);
    }
    hide Wire2;
  }

  /** Every timely interleaving of the three threads, the channel and the receiver: window and credits stay in step, no
      unacknowledged packet loses its slot, a datagram not yet acknowledged is unaltered, the output is a prefix of what
      was submitted, and when Close leaves its wait loop it is all of it and the number of the FIN is nextSeq. */
  lemma EveryInterleaving(window: nat, wnd: nat, acts: seq<Act>)
    requires 1 <= window && Run2(Opening(window, wnd), acts).Some? && AllTimely(Opening(window, wnd), acts)
    ensures Kept(Run2(Opening(window, wnd), acts).value)
  {
    hide Safe2;
    hide Kept;
    hide Opening;
    OpeningSafe(window, wnd);
    Run2Safe(Opening(window, wnd), acts);
    SafeIsKept(Run2(Opening(window, wnd), acts).value);
  }
}
