/** The sender composed with a channel that may lose, duplicate and reorder, and with a receiver that
    acknowledges the next packet it expects and never moves its right edge left. Every run of the
    composition keeps the invariant `Safe`. */
module SlidingWindow {
  import Rtt
  import opened Common
  import opened Sender

  /** Where the application is inside Send: outside, past the wait, with the size of its slot written, or with the
      number and the first `done` bytes of the payload written too. */
  datatype Phase = Idle | Holding | Resized(data: Payload) | Filling(done: nat)

  datatype Ack = Ack(seqNo: nat, wnd: nat)

  /** `delivered` is the in-order output, `held` what arrived so far, `edge` the largest
      sequence number (exclusive) the receiver has ever permitted. */
  datatype Receiver = Receiver(delivered: seq<Payload>, held: map<nat, Payload>, edge: nat)

  /** `submitted` lists the payloads given to Send, `acks` every ACK ever put on the return path. */
  datatype System = System(s: State, phase: Phase, submitted: seq<Payload>, r: Receiver, acks: set<Ack>)

  datatype Action =
    | EnterSend
    | WriteSize(data: Payload)
    | WriteNumber
    | WriteBytes(n: nat)
    | LeaveSend
    | Transmit(now: int, ok: bool)
    | AckIn(ack: Ack, now: int, ok: bool)
    | TimeOut(now: int, ok: bool)
    | ReceiveFails
    | Arrive(t: nat)
    | Deliver
    | AckOut(wnd: nat)

  function Initial(window: nat, wnd: nat, synRtt: real): (y: System)
    requires 1 <= window
    ensures y.s.Shape() && y.s.rtt == Rtt.AfterSyn(synRtt)
  {
    System(Opened(window, wnd, synRtt), Idle, [], Receiver([], map[], wnd), {})
  }

  /** The payload Send is copying. */
  function LastSubmitted(y: System): Payload
    requires y.submitted != []
  {
    y.submitted[|y.submitted| - 1]
  }

  /** The slot of base holds a packet whose first transmission is behind us. When nothing is queued that is the packet
      one ring length below base, unless Send has already put another size in its slot. */
  predicate Resendable(y: System) {
    || y.s.base < y.s.nextToSend
    || (y.s.window <= y.s.base == |y.submitted| && 1 <= y.s.window
        && (y.phase.Resized? ==> |y.phase.data| == |y.submitted[y.s.base - y.s.window]|))
  }

  predicate FiresFast(y: System, ack: nat) { ack == y.s.base && y.s.dupAck == 2 }

  /** What the code and the channel allow. The worker leaves its loop once quit is signalled. */
  predicate Possible(y: System, a: Action)
    requires y.s.Shape()
  {
    match a
    case EnterSend => y.phase == Idle && !y.s.quit && 0 < y.s.empty
    case WriteSize(_) => y.phase.Holding?
    case WriteNumber => y.phase.Resized?
    case WriteBytes(n) => y.phase.Filling? && y.submitted != [] && y.phase.done + n <= |LastSubmitted(y)|
    case LeaveSend => y.phase.Filling? && y.submitted != [] && y.phase.done == |LastSubmitted(y)|
    case Transmit(_, _) => !y.s.quit && 0 < y.s.full
    case AckIn(ack, _, _) => !y.s.quit && ack in y.acks
    case TimeOut(_, _) => !y.s.quit && y.s.base < y.s.nextToSend
    case ReceiveFails => !y.s.quit
    case Arrive(t) => t < |y.s.wire| && y.s.wire[t].body.Defined?
    case Deliver => |y.r.delivered| in y.r.held
    case AckOut(_) => true
  }

  /** The two assumptions on a run: a fast retransmit fires in a Resendable state (see FastRetransmitExact), and the
      receiver does not move its right edge left (see AckExact). */
  predicate Enabled(y: System, a: Action)
    requires y.s.Shape()
  {
    && Possible(y, a)
    && (a.AckIn? && FiresFast(y, a.ack.seqNo) ==> Resendable(y))
    && (a.AckOut? ==> y.r.edge <= |y.r.delivered| + a.wnd)
  }

  function Step(y: System, a: Action): (z: System)
    requires y.s.Shape() && Possible(y, a)
    ensures z.s.Shape()
  {
    match a
    case EnterSend => y.(s := TakeCredit(y.s), phase := Holding)
    case WriteSize(data) => y.(s := PutSize(y.s, |data|), phase := Resized(data))
    case WriteNumber => y.(s := PutNumber(y.s), phase := Filling(0), submitted := y.submitted + [y.phase.data])
    case WriteBytes(n) =>
      var m := y.phase.done;
      y.(s := PutBytes(y.s, LastSubmitted(y), m, m + n), phase := Filling(m + n))
    case LeaveSend => y.(s := Publish(y.s), phase := Idle)
    case Transmit(now, ok) => y.(s := FirstSend(y.s, now, ok))
    case AckIn(ack, now, ok) => y.(s := OnAck(y.s, ack.seqNo, ack.wnd, now, ok))
    case TimeOut(now, ok) => y.(s := OnTimeout(y.s, now, ok))
    case ReceiveFails => y.(s := y.s.(quit := true))
    case Arrive(t) =>
      var b := y.s.wire[t].body.value;
      y.(r := y.r.(held := y.r.held[b.seqNo := b.payload]))
    case Deliver => y.(r := y.r.(delivered := y.r.delivered + [y.r.held[|y.r.delivered|]]))
    case AckOut(wnd) =>
      var n := |y.r.delivered|;
      y.(acks := y.acks + {Ack(n, wnd)}, r := y.r.(edge := n + wnd))
  }

  /** Close has left its wait loop normally: every Send has returned and all of it is acknowledged. */
  predicate Closed(z: System) { z.phase == Idle && z.s.nextSeq <= z.s.base }

  // ------------------------------------------------ the invariant

  function InHand(p: Phase): nat { if p.Idle? then 0 else 1 }

  /** Window and credit accounting. */
  predicate Accounts(y: System) {
    var s := y.s;
    && s.Shape()
    && s.base <= s.nextToSend <= s.nextSeq
    && s.lastReleased == s.base + Min(s.window, s.receiverWindow)
    && s.empty + InHand(y.phase) == s.lastReleased - s.nextSeq
    && s.full == s.nextSeq - s.nextToSend
    && |y.submitted| == s.nextSeq + (if y.phase.Filling? then 1 else 0)
  }

  predicate Stores(s: State, k: nat, data: Payload)
    requires s.Shape()
  {
    s.At(k).Offered() == Defined(Body(k, data))
  }

  /** The slot of packet k holds it. While packet n is being written, its own payload is missing, and the size of the
      packet it replaces is gone. */
  predicate Holds(y: System, k: nat)
    requires y.s.Shape() && k < |y.submitted|
  {
    var c, n := y.s.At(k), y.s.nextSeq;
    && c.seqNo == Defined(k)
    && ((y.phase.Filling? && k == n) || y.submitted[k] <= c.bytes)
    && ((y.phase.Resized? && k + y.s.window == n) || c.size == Defined(|y.submitted[k]|))
  }

  /** The ring holds the last `window` submitted packets, each in its own slot. */
  ghost predicate RingHolds(y: System)
    requires y.s.Shape()
  {
    forall k: nat :: k < |y.submitted| <= k + y.s.window ==> Holds(y, k)
  }

  /** How much of the slot of nextSeq Send has written. */
  predicate Partial(y: System)
    requires y.s.Shape()
  {
    var c := y.s.At(y.s.nextSeq);
    && (y.phase.Resized? ==> c.size == Defined(|y.phase.data|))
    && (y.phase.Filling? ==>
          && y.submitted != [] && y.phase.done <= |LastSubmitted(y)|
          && LastSubmitted(y)[..y.phase.done] <= c.bytes)
  }

  /** A slot no packet has used yet has never been written. */
  ghost predicate RestUnwritten(y: System)
    requires y.s.Shape()
  {
    forall i :: |y.submitted| <= i < y.s.window ==> y.s.ring[i].seqNo == Undefined
  }

  predicate Flagged(s: State, k: nat)
    requires s.Shape()
  {
    s.At(k).flags == Defined(DATA_FLAGS)
  }

  ghost predicate SlotsFlagged(s: State)
    requires s.Shape()
  {
    forall k: nat :: k < s.nextToSend ==> Flagged(s, k)
  }

  /** A packet on the wire is a data packet, with the magic number and neither SYN, ACK nor FIN, that carries the
      payload submitted under its number. */
  predicate Truthful(t: Transmission, submitted: seq<Payload>, below: nat) {
    && t.flags == Defined(Flags(0, false, false, false, 0x8311AA))
    && t.body.Defined?
    && t.body.value.seqNo < below <= |submitted|
    && t.body.value.payload == submitted[t.body.value.seqNo]
  }

  ghost predicate WireTruthful(y: System) {
    forall t :: 0 <= t < |y.s.wire| ==> Truthful(y.s.wire[t], y.submitted, y.s.nextToSend)
  }

  ghost predicate ReceiverFaithful(y: System) {
    && |y.r.delivered| <= y.s.nextToSend <= |y.submitted|
    && y.r.delivered == y.submitted[..|y.r.delivered|]
    && forall k :: k in y.r.held ==> k < y.s.nextToSend && y.r.held[k] == y.submitted[k]
  }

  function Edge(a: Ack): nat { a.seqNo + a.wnd }

  /** What the return path can contain, and how it relates to the sender's window. */
  ghost predicate AcksOrdered(y: System) {
    && y.s.base <= |y.r.delivered|
    && y.s.base + y.s.receiverWindow <= y.r.edge
    && (forall a :: a in y.acks ==> a.seqNo <= |y.r.delivered| && Edge(a) <= y.r.edge)
    && (forall a :: a in y.acks && y.s.base < a.seqNo ==> y.s.base + y.s.receiverWindow <= Edge(a))
    && (forall a, b :: a in y.acks && b in y.acks && a.seqNo < b.seqNo ==> Edge(a) <= Edge(b))
  }

  ghost predicate Safe(y: System) {
    && Accounts(y) && RingHolds(y) && Partial(y) && RestUnwritten(y) && SlotsFlagged(y.s) && WireTruthful(y)
    && ReceiverFaithful(y) && AcksOrdered(y)
  }

  // ------------------------------------------------ slots

  lemma Multiple(w: int, k: int)
    requires 1 <= w && k != 0
    ensures w <= w * k || w * k <= -w
  {
    if 1 <= k {
      assert 0 <= w * (k - 1);
    } else {
      assert 0 <= w * (-1 - k);
    }
  }

  lemma SameSlot(a: nat, b: nat, w: nat)
    requires 1 <= w && a < b + w && b < a + w
    requires SlotOf(a, w) == SlotOf(b, w)
    ensures a == b
  {
    var p, q := a / w, b / w;
    assert a - b == w * p - w * q == w * (p - q);
    if p != q {
      Multiple(w, p - q);
    }
  }

  lemma SlotPeriod(a: nat, w: nat)
    requires 1 <= w
    ensures SlotOf(a + w, w) == SlotOf(a, w)
  {
    var p, q := a / w, (a + w) / w;
    var r, t := a % w, (a + w) % w;
    assert a == w * p + r && a + w == w * q + t;
    assert w * (p + 1 - q) == w * p + w - w * q;
    if p + 1 != q {
      Multiple(w, p + 1 - q);
    }
  }

  lemma InitialSafe(window: nat, wnd: nat, synRtt: real)
    requires 1 <= window
    ensures Safe(Initial(window, wnd, synRtt))
  {}

  /** Writing the slot of packet b leaves the slot of any other packet within one ring length alone. */
  lemma PutElsewhere(s: State, b: nat, slot: Slot, k: nat)
    requires s.Shape() && k != b && k < b + s.window && b < k + s.window
    ensures s.Put(b, slot).At(k) == s.At(k)
  {
    if SlotOf(k, s.window) == SlotOf(b, s.window) {
      SameSlot(k, b, s.window);
    }
  }

  predicate SameRing(y: System, z: System) {
    && y.s.Shape() && z.s.Shape() && z.s.window == y.s.window && z.submitted == y.submitted
    && z.phase == y.phase && z.s.nextSeq == y.s.nextSeq
  }

  /** Restamping or reflagging a slot moves no packet. */
  lemma PacketsKept(y: System, z: System)
    requires SameRing(y, z) && RingHolds(y) && Partial(y) && RestUnwritten(y)
    requires forall i :: 0 <= i < y.s.window ==> SamePacket(z.s.ring[i], y.s.ring[i])
    ensures RingHolds(z) && Partial(z) && RestUnwritten(z)
  {
    assert SamePacket(z.s.At(y.s.nextSeq), y.s.At(y.s.nextSeq));
    forall k: nat | k < |z.submitted| <= k + z.s.window ensures Holds(z, k) {
      assert Holds(y, k);
      assert SamePacket(z.s.At(k), y.s.At(k));
    }
    hide SlotOf;
  }

  /** The ring offers packet k to a sendto, unless Send is at work on its slot. */
  lemma OfferedAt(y: System, k: nat)
    requires y.s.Shape() && RingHolds(y) && Partial(y) && k < |y.submitted| <= k + y.s.window
    requires |y.submitted| == y.s.nextSeq + (if y.phase.Filling? then 1 else 0)
    requires y.phase.Resized? && k + y.s.window == y.s.nextSeq ==> |y.phase.data| == |y.submitted[k]|
    requires y.phase.Filling? && k == y.s.nextSeq ==> y.phase.done == |y.submitted[k]|
    ensures Stores(y.s, k, y.submitted[k])
  {
    assert Holds(y, k);
    if y.phase.Resized? && k + y.s.window == y.s.nextSeq {
      SlotPeriod(k, y.s.window);
    }
    var d, c := y.submitted[k], y.s.At(k);
    if y.phase.Filling? && k == y.s.nextSeq {
      assert d[..|d|] == d;
    }
    assert d <= c.bytes && c.size == Defined(|d|);
    assert c.bytes[..|d|] == d;
    hide SlotOf;
    hide RingHolds;
  }

  lemma FlagsKept(s: State, t: State)
    requires s.Shape() && t.Shape() && t.window == s.window && SlotsFlagged(s) && t.nextToSend == s.nextToSend
    requires forall i :: 0 <= i < s.window ==> t.ring[i].flags == s.ring[i].flags
    ensures SlotsFlagged(t)
  {
    forall k: nat | k < t.nextToSend ensures Flagged(t, k) {
      assert Flagged(s, k);
    }
  }

  // ------------------------------------------------ every action keeps the invariant

  /** Steps of Send that write no slot. */
  lemma EnterSendSafe(y: System)
    requires Safe(y) && Enabled(y, EnterSend)
    ensures Safe(Step(y, EnterSend))
  {
    var z := Step(y, EnterSend);
    forall k: nat | k < |z.submitted| <= k + z.s.window ensures Holds(z, k) {
      assert Holds(y, k);
    }
    FlagsKept(y.s, z.s);
    hide SlotOf;
  }

  /** The three writes of Send into the slot of packet n keep every other packet that still has its slot. */
  lemma WriteSizeRing(y: System, data: Payload)
    requires Safe(y) && Enabled(y, WriteSize(data))
    ensures RingHolds(Step(y, WriteSize(data)))
  {
    var z := Step(y, WriteSize(data));
    var n := y.s.nextSeq;
    forall k: nat | k < |z.submitted| <= k + z.s.window ensures Holds(z, k) {
      assert Holds(y, k);
      if k + y.s.window != n {
        PutElsewhere(y.s, n, z.s.At(n), k);
      } else {
        SlotPeriod(k, y.s.window);
      }
    }
  }

  lemma WriteNumberRing(y: System)
    requires Safe(y) && Enabled(y, WriteNumber)
    ensures RingHolds(Step(y, WriteNumber))
  {
    var z := Step(y, WriteNumber);
    var n := y.s.nextSeq;
    forall k: nat | k < |z.submitted| <= k + z.s.window ensures Holds(z, k) {
      if k != n {
        assert Holds(y, k);
        PutElsewhere(y.s, n, z.s.At(n), k);
      }
    }
  }

  lemma WriteBytesRing(y: System, m: nat)
    requires Safe(y) && Enabled(y, WriteBytes(m))
    ensures RingHolds(Step(y, WriteBytes(m)))
  {
    var z := Step(y, WriteBytes(m));
    var n := y.s.nextSeq;
    assert Holds(y, n);
    forall k: nat | k < |z.submitted| <= k + z.s.window ensures Holds(z, k) {
      assert Holds(y, k);
      if k != n {
        PutElsewhere(y.s, n, z.s.At(n), k);
      }
    }
  }

  lemma SmallSlot(k: nat, w: nat)
    requires k < w
    ensures SlotOf(k, w) == k
  {}

  predicate Writes(a: Action) { a.WriteSize? || a.WriteNumber? || a.WriteBytes? }

  lemma WriteRest(y: System, a: Action)
    requires Safe(y) && Enabled(y, a) && Writes(a)
    ensures RestUnwritten(Step(y, a)) && Partial(Step(y, a))
  {
    if y.s.nextSeq < y.s.window {
      SmallSlot(y.s.nextSeq, y.s.window);
    }
    hide SlotOf;
    hide Overlaid;
    hide RingHolds;
  }

  lemma WriteRing(y: System, a: Action)
    requires Safe(y) && Enabled(y, a) && Writes(a)
    ensures RingHolds(Step(y, a))
  {
    match a
    case WriteSize(data) => WriteSizeRing(y, data);
    case WriteNumber => WriteNumberRing(y);
    case WriteBytes(n) => WriteBytesRing(y, n);
  }

  /** Filling a slot overwrites no unacknowledged packet. */
  lemma WriteSafe(y: System, a: Action)
    requires Safe(y) && Enabled(y, a) && Writes(a)
    ensures Safe(Step(y, a))
  {
    WriteRing(y, a);
    WriteRest(y, a);
    FlagsKept(y.s, Step(y, a).s);
    hide SlotOf;
    hide Overlaid;
    hide RingHolds;
    hide Partial;
    hide RestUnwritten;
  }

  lemma LeaveSendSafe(y: System)
    requires Safe(y) && Enabled(y, LeaveSend)
    ensures Safe(Step(y, LeaveSend))
  {
    var z := Step(y, LeaveSend);
    var d := LastSubmitted(y);
    assert d[..|d|] == d;
    forall k: nat | k < |z.submitted| <= k + z.s.window ensures Holds(z, k) {
      assert Holds(y, k);
    }
    FlagsKept(y.s, z.s);
    hide SlotOf;
  }

  lemma TransmitSafe(y: System, now: int, ok: bool)
    requires Safe(y) && Enabled(y, Transmit(now, ok))
    ensures Safe(Step(y, Transmit(now, ok)))
  {
    var z := Step(y, Transmit(now, ok));
    var k := y.s.nextToSend;
    OfferedAt(y, k);
    PacketsKept(y, z);
    forall j: nat | j < z.s.nextToSend ensures Flagged(z.s, j) {
      if j < k {
        assert Flagged(y.s, j);
      }
    }
    forall t | 0 <= t < |z.s.wire| ensures Truthful(z.s.wire[t], z.submitted, z.s.nextToSend) {
      if t < |y.s.wire| {
        assert Truthful(y.s.wire[t], y.submitted, y.s.nextToSend);
      }
    }
  }

  /** Sending the slot of base again puts a packet on the wire that was already sent. */
  lemma ResendTruthful(y: System, now: int)
    requires Safe(y) && Resendable(y)
    ensures var z := Resend(y.s, now);
      Truthful(z.wire[|y.s.wire|], y.submitted, y.s.nextToSend)
  {
    var b := y.s.base;
    if b < y.s.nextToSend {
      OfferedAt(y, b);
      assert Flagged(y.s, b);
    } else {
      SlotPeriod(b - y.s.window, y.s.window);
      OfferedAt(y, b - y.s.window);
      assert Flagged(y.s, b - y.s.window);
    }
  }

  lemma ResendSafe(y: System, z: System, now: int)
    requires Safe(y) && Resendable(y)
    requires z.s.(retx := y.s.retx, dupAck := y.s.dupAck) == Resend(y.s, now)
    requires z == y.(s := z.s)
    ensures Safe(z)
  {
    ResendTruthful(y, now);
    PacketsKept(y, z);
    FlagsKept(y.s, z.s);
    forall t | 0 <= t < |z.s.wire| ensures Truthful(z.s.wire[t], z.submitted, z.s.nextToSend) {
      if t < |y.s.wire| {
        assert Truthful(y.s.wire[t], y.submitted, y.s.nextToSend);
      }
    }
  }

  lemma TimeOutSafe(y: System, now: int, ok: bool)
    requires Safe(y) && Enabled(y, TimeOut(now, ok))
    ensures Safe(Step(y, TimeOut(now, ok)))
  {
    var z := Step(y, TimeOut(now, ok));
    if y.s.retx + 1 > MAX_ATTEMPTS || !ok {
      PacketsKept(y, z);
      FlagsKept(y.s, z.s);
    } else {
      ResendSafe(y, z, now);
    }
  }

  /** The receiver's rule makes the release of credits non-negative, whatever order the ACKs come in. */
  lemma AckWithinWindow(y: System, ack: Ack)
    requires Safe(y) && ack in y.acks && y.s.base < ack.seqNo
    ensures ack.seqNo <= y.s.nextToSend
    ensures y.s.lastReleased <= ack.seqNo + Min(y.s.window, ack.wnd)
  {}

  lemma AdvanceSafe(y: System, ack: Ack, now: int)
    requires Safe(y) && ack in y.acks && y.s.base < ack.seqNo
    ensures Safe(y.(s := Advance(y.s, ack.seqNo, ack.wnd, now)))
  {
    var z := y.(s := Advance(y.s, ack.seqNo, ack.wnd, now));
    AckWithinWindow(y, ack);
    PacketsKept(y, z);
    FlagsKept(y.s, z.s);
  }

  lemma DuplicateSafe(y: System, now: int, ok: bool)
    requires Safe(y) && (FiresFast(y, y.s.base) ==> Resendable(y))
    ensures Safe(y.(s := Duplicate(y.s, now, ok)))
  {
    var z := y.(s := Duplicate(y.s, now, ok));
    if y.s.dupAck == 2 && ok {
      ResendSafe(y, z, now);
    } else {
      PacketsKept(y, z);
      FlagsKept(y.s, z.s);
    }
  }

  lemma AckInSafe(y: System, ack: Ack, now: int, ok: bool)
    requires Safe(y) && Enabled(y, AckIn(ack, now, ok))
    ensures Safe(Step(y, AckIn(ack, now, ok)))
  {
    if y.s.base < ack.seqNo {
      AdvanceSafe(y, ack, now);
    } else if ack.seqNo == y.s.base {
      DuplicateSafe(y, now, ok);
    } else {
    }
  }

  lemma ReceiverStepSafe(y: System, a: Action)
    requires Safe(y) && Enabled(y, a) && (a.Arrive? || a.Deliver? || a.AckOut?)
    ensures Safe(Step(y, a))
  {
    var z := Step(y, a);
    PacketsKept(y, z);
    FlagsKept(y.s, z.s);
    if a.Arrive? {
      assert Truthful(y.s.wire[a.t], y.submitted, y.s.nextToSend);
    }
  }

  lemma StepSafe(y: System, a: Action)
    requires Safe(y) && Enabled(y, a)
    ensures Safe(Step(y, a))
  {
    match a
    case EnterSend => EnterSendSafe(y);
    case WriteSize(_) => WriteSafe(y, a);
    case WriteNumber => WriteSafe(y, a);
    case WriteBytes(_) => WriteSafe(y, a);
    case LeaveSend => LeaveSendSafe(y);
    case Transmit(now, ok) => TransmitSafe(y, now, ok);
    case AckIn(ack, now, ok) => AckInSafe(y, ack, now, ok);
    case TimeOut(now, ok) => TimeOutSafe(y, now, ok);
    case ReceiveFails =>
      PacketsKept(y, Step(y, a));
      FlagsKept(y.s, Step(y, a).s);
    case Arrive(_) => ReceiverStepSafe(y, a);
    case Deliver => ReceiverStepSafe(y, a);
    case AckOut(_) => ReceiverStepSafe(y, a);
  }

  // ------------------------------------------------ runs

  /** The state after a run, or None when some action of it was not enabled. */
  function Run(y: System, acts: seq<Action>): (z: Option<System>)
    requires y.s.Shape()
    ensures z.Some? ==> z.value.s.Shape()
    decreases |acts|
  {
    if acts == [] then Some(y)
    else
      var n := |acts| - 1;
      match Run(y, acts[..n])
      case None => None
      case Some(x) => if Enabled(x, acts[n]) then Some(Step(x, acts[n])) else None
  }

  lemma {:induction false} RunSafe(y: System, acts: seq<Action>)
    requires Safe(y) && Run(y, acts).Some?
    ensures Safe(Run(y, acts).value)
    decreases |acts|
  {
    hide RingHolds;
    hide RestUnwritten;
    hide SlotsFlagged;
    hide WireTruthful;
    hide ReceiverFaithful;
    hide AcksOrdered;
    hide Step;
    hide Enabled;
    if acts != [] {
      var n := |acts| - 1;
      RunSafe(y, acts[..n]);
      StepSafe(Run(y, acts[..n]).value, acts[n]);
    }
  }
}
