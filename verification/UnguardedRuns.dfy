/** Runs of the single-worker sender in which a sendto reads a slot that Send has written in part, followed to the
    receiver's output. One of them repeats an ACK, the other takes back a window. */
module UnguardedRuns {
  import Rtt
  import opened Common
  import opened Sender
  import opened SlidingWindow
  import opened Unguarded

  /** The code can get from the end of Open to y, with the ring and the receiver's first window of size w. */
  ghost predicate Reached(w: nat, y: System)
    requires 1 <= w
  {
    exists acts :: AnyRun(Initial(w, w, 0.1), acts) == Some(y)
  }

  lemma Next(w: nat, y: System, a: Action) returns (z: System)
    requires 1 <= w && y.s.Shape() && Reached(w, y) && Possible(y, a)
    ensures z == Step(y, a) && z.s.Shape() && Reached(w, z)
  {
    hide Initial;
    hide Possible;
    hide Step;
    z := Step(y, a);
    var acts :| AnyRun(Initial(w, w, 0.1), acts) == Some(y);
    AnyRunMore(Initial(w, w, 0.1), acts, a);
  }

  lemma ReachedStart(w: nat)
    requires 1 <= w
    ensures Reached(w, Initial(w, w, 0.1))
  {
    assert AnyRun(Initial(w, w, 0.1), []) == Some(Initial(w, w, 0.1));
  }

  // ------------------------------------------------ stretches of a run

  /** A packet as it stands in its slot after Send, over payload memory `was`. */
  function Filled(c: Slot, k: nat, data: Payload): Slot {
    c.(size := Defined(|data|), seqNo := Defined(k), bytes := Overlaid(c.bytes, data, 0, |data|))
  }

  /** A whole Send. */
  lemma Sends(w: nat, y: System, data: Payload) returns (z: System)
    requires 1 <= w && y.s.Shape() && Reached(w, y) && y.phase == Idle && !y.s.quit && 0 < y.s.empty
    requires y.s.full < y.s.window
    ensures z == y.(s := y.s.Put(y.s.nextSeq, Filled(y.s.At(y.s.nextSeq), y.s.nextSeq, data))
                        .(effectiveWindow := Min(y.s.window, y.s.receiverWindow), empty := y.s.empty - 1,
                          nextSeq := y.s.nextSeq + 1, full := y.s.full + 1),
                    submitted := y.submitted + [data])
    ensures z.s.Shape() && Reached(w, z)
    ensures Filled(y.s.At(y.s.nextSeq), y.s.nextSeq, data).Offered() == Defined(Body(y.s.nextSeq, data))
  {
    hide Reached;
    hide SlotOf;
    hide Overlaid;
    z := Next(w, y, EnterSend);
    z := Next(w, z, WriteSize(data));
    z := Next(w, z, WriteNumber);
    z := Next(w, z, WriteBytes(|data|));
    z := Next(w, z, LeaveSend);
    FillOnce(TakeCredit(y.s), data);
    hide Fill;
  }

  /** The next packet goes out for the first time. */
  lemma Transmits(w: nat, y: System) returns (z: System)
    requires 1 <= w && y.s.Shape() && Reached(w, y) && !y.s.quit && 0 < y.s.full
    ensures var k := y.s.nextToSend; var c := y.s.At(k);
      z == y.(s := y.s.Put(k, c.(flags := Defined(DATA_FLAGS), txTime := Defined(0)))
                      .(effectiveWindow := Min(y.s.window, y.s.receiverWindow), full := y.s.full - 1,
                        nextToSend := k + 1, wire := y.s.wire + [Transmission(Defined(DATA_FLAGS), c.Offered(), 0)]))
    ensures z.s.Shape() && Reached(w, z)
  {
    hide Reached;
    z := Next(w, y, Transmit(0, true));
    hide SlotOf;
    assert z.s.At(y.s.nextToSend).Offered() == y.s.At(y.s.nextToSend).Offered();
  }

  /** Packet k with payload `data` in its slot, and on the wire. */
  function Cell(k: nat, data: Payload): Slot {
    Slot(Defined(DATA_FLAGS), Defined(|data|), Defined(k), data, Defined(0))
  }

  function Sent(k: nat, data: Payload): Transmission { Transmission(Defined(DATA_FLAGS), Defined(Body(k, data)), 0) }

  lemma OverlaidAll(was: Payload, data: Payload)
    requires |was| <= |data|
    ensures Overlaid(was, data, 0, |data|) == data
  {}

  /** A whole Send and the first transmission, into a slot whose memory is no longer than the payload. */
  lemma SendsAndTransmits(w: nat, y: System, data: Payload) returns (z: System)
    requires 1 <= w && y.s.Shape() && Reached(w, y) && y.phase == Idle && !y.s.quit && 0 < y.s.empty
    requires y.s.full == 0 && y.s.nextToSend == y.s.nextSeq && |y.s.At(y.s.nextSeq).bytes| <= |data|
    ensures var k := y.s.nextSeq;
      z == y.(s := y.s.Put(k, Cell(k, data))
                      .(effectiveWindow := Min(y.s.window, y.s.receiverWindow), empty := y.s.empty - 1,
                        nextSeq := k + 1, nextToSend := k + 1, wire := y.s.wire + [Sent(k, data)]),
              submitted := y.submitted + [data])
    ensures z.s.Shape() && Reached(w, z)
  {
    var k := y.s.nextSeq;
    z := Sends(w, y, data);
    OverlaidAll(y.s.At(k).bytes, data);
    z := Transmits(w, z);
    hide Reached;
    hide SlotOf;
    hide Overlaid;
    var i := SlotOf(k, y.s.window);
    assert z.s.ring == y.s.ring[i := Cell(k, data)];
  }

  /** Send passes its wait and writes the size and the number of its packet. */
  lemma StartsSend(w: nat, y: System, data: Payload) returns (z: System)
    requires 1 <= w && y.s.Shape() && Reached(w, y) && y.phase == Idle && !y.s.quit && 0 < y.s.empty
    ensures var k := y.s.nextSeq;
      z == y.(s := y.s.Put(k, y.s.At(k).(size := Defined(|data|), seqNo := Defined(k)))
                      .(effectiveWindow := Min(y.s.window, y.s.receiverWindow), empty := y.s.empty - 1),
              phase := Filling(0), submitted := y.submitted + [data])
    ensures z.s.Shape() && Reached(w, z)
  {
    hide Reached;
    z := Next(w, y, EnterSend);
    z := Next(w, z, WriteSize(data));
    z := Next(w, z, WriteNumber);
    hide SlotOf;
    var i := SlotOf(y.s.nextSeq, y.s.window);
    assert z.s.ring == y.s.ring[i := y.s.ring[i].(size := Defined(|data|), seqNo := Defined(y.s.nextSeq))];
  }

  /** An ACK above base. */
  lemma Accepts(w: nat, y: System, ack: Ack) returns (z: System)
    requires 1 <= w && y.s.Shape() && Reached(w, y) && !y.s.quit && ack in y.acks && y.s.base < ack.seqNo
    ensures var eff := Min(y.s.window, ack.wnd); var edge := ack.seqNo + eff;
      z == y.(s := y.s.(base := ack.seqNo, receiverWindow := ack.wnd, effectiveWindow := eff, retx := 0, dupAck := 0,
                        lastReleased := edge, empty := Released(y.s.empty, edge - y.s.lastReleased, y.s.window),
                        rtt := z.s.rtt))
    ensures z.s.Shape() && Reached(w, z)
  {
    hide Reached;
    hide SlotOf;
    z := Next(w, y, AckIn(ack, 1, true));
  }

  /** The receiver takes datagram t, and then the next packet in order. */
  lemma TakesIn(w: nat, y: System, t: nat, k: nat, data: Payload) returns (z: System)
    requires 1 <= w && y.s.Shape() && Reached(w, y) && t < |y.s.wire| && y.s.wire[t].body == Defined(Body(k, data))
    ensures z == y.(r := y.r.(held := y.r.held[k := data])) && Reached(w, z)
  {
    hide Reached;
    z := Next(w, y, Arrive(t));
  }

  lemma PutsOut(w: nat, y: System, data: Payload) returns (z: System)
    requires 1 <= w && y.s.Shape() && Reached(w, y) && |y.r.delivered| in y.r.held && y.r.held[|y.r.delivered|] == data
    ensures z == y.(r := y.r.(delivered := y.r.delivered + [data])) && Reached(w, z)
  {
    hide Reached;
    z := Next(w, y, Deliver);
  }

  lemma Answers(w: nat, y: System, wnd: nat) returns (z: System)
    requires 1 <= w && y.s.Shape() && Reached(w, y)
    ensures var n := |y.r.delivered|; z == y.(acks := y.acks + {Ack(n, wnd)}, r := y.r.(edge := n + wnd))
    ensures Reached(w, z)
  {
    hide Reached;
    z := Next(w, y, AckOut(wnd));
  }

  // ------------------------------------------------ one ACK too often

  /** Window 1: packet 0 sent, put out and acknowledged. */
  function Acknowledged(first: Payload, rtt: Rtt.Estimate): System {
    System(State(1, 1, 1, 1, 2, 0, 0, 1, 1, [Cell(0, first)], 1, 0, false, rtt, [Sent(0, first)]),
           Idle, [first], Receiver([first], map[0 := first], 2), {Ack(1, 1)})
  }

  lemma ReachAcknowledged(first: Payload) returns (z: System)
    ensures Reached(1, z) && z == Acknowledged(first, z.s.rtt)
  {
    ReachedStart(1);
    var y := Initial(1, 1, 0.1);
    assert SlotOf(0, 1) == 0;
    hide SlotOf;
    hide Reached;
    z := SendsAndTransmits(1, y, first);
    z := TakesIn(1, z, 0, 0, first);
    z := PutsOut(1, z, first);
    z := Answers(1, z, 1);
    z := Accepts(1, z, Ack(1, 1));
    assert z.s.ring == [Cell(0, first)];
  }

  /** Two copies of the ACK, and Send up to the number of packet 1. */
  lemma ReachNumbered(first: Payload, second: Payload) returns (z: System)
    ensures Reached(1, z)
    ensures var y := Acknowledged(first, z.s.rtt);
      z == y.(s := y.s.(dupAck := 2, empty := 0,
                        ring := [Cell(0, first).(size := Defined(|second|), seqNo := Defined(1))]),
              phase := Filling(0), submitted := [first, second])
  {
    z := ReachAcknowledged(first);
    assert SlotOf(1, 1) == 0;
    hide SlotOf;
    hide Reached;
    z := Next(1, z, AckIn(Ack(1, 1), 2, true));
    z := Next(1, z, AckIn(Ack(1, 1), 3, true));
    z := StartsSend(1, z, second);
  }

  /** A third copy arrives after line 470 and before line 471: the fast retransmit sends the number of packet 1 with the
      payload of packet 0, and the receiver puts that out. */
  lemma DuplicateTooMany(first: Payload, second: Payload) returns (x: System, z: System)
    requires |first| == |second| && 1 <= |second|
    ensures Reached(1, x) && x.s.Shape() && !Undisturbed(x, AckIn(Ack(1, 1), 4, true))
    ensures Reached(1, z) && z.submitted == [first, second] && z.r.delivered == [first, first]
  {
    x := ReachNumbered(first, second);
    assert SlotOf(1, 1) == 0;
    hide SlotOf;
    hide Reached;
    assert first[..|first|] == first;
    z := Next(1, x, AckIn(Ack(1, 1), 4, true));
    assert z.s.wire[1].body == Defined(Body(1, first));
    z := TakesIn(1, z, 1, 1, first);
    z := PutsOut(1, z, first);
  }

  // ------------------------------------------------ a window taken back

  function Same(n: nat, data: Payload): seq<Payload> { seq(n, _ => data) }

  /** Window 3: packets 0 to 2 sent with one payload. */
  function ThreeSent(first: Payload): System {
    System(State(3, 0, 3, 3, 3, 0, 0, 3, 3, [Cell(0, first), Cell(1, first), Cell(2, first)], 0, 0, false,
                 Rtt.AfterSyn(0.1), [Sent(0, first), Sent(1, first), Sent(2, first)]),
           Idle, Same(3, first), Receiver([], map[], 3), {})
  }

  lemma ReachThreeSent(first: Payload)
    ensures Reached(3, ThreeSent(first))
  {
    ReachedStart(3);
    assert SlotOf(0, 3) == 0 && SlotOf(1, 3) == 1 && SlotOf(2, 3) == 2;
    hide SlotOf;
    hide Reached;
    var z := SendsAndTransmits(3, Initial(3, 3, 0.1), first);
    z := SendsAndTransmits(3, z, first);
    z := SendsAndTransmits(3, z, first);
    assert z.s.ring == ThreeSent(first).s.ring;
    assert z.submitted == Same(3, first);
    assert z == ThreeSent(first);
  }

  /** The receiver closes its window with the first ACK and opens it to 2 with the second. */
  lemma ReachShrunk(first: Payload) returns (z: System)
    ensures Reached(3, z)
    ensures var y := ThreeSent(first);
      z == y.(r := Receiver([first, first], map[0 := first, 1 := first], 4), acks := {Ack(1, 0), Ack(2, 2)})
  {
    ReachThreeSent(first);
    hide Reached;
    z := TakesIn(3, ThreeSent(first), 0, 0, first);
    z := TakesIn(3, z, 1, 1, first);
    z := PutsOut(3, z, first);
    z := Answers(3, z, 0);
    z := PutsOut(3, z, first);
    z := Answers(3, z, 2);
  }

  /** Those two ACKs leave three credits, one more than the ring has room for: packet 2 is not acknowledged. */
  lemma ReachOverdrawn(first: Payload) returns (z: System)
    ensures Reached(3, z)
    ensures var y := ThreeSent(first);
      z == y.(s := y.s.(base := 2, lastReleased := 4, receiverWindow := 2, effectiveWindow := 2, empty := 3,
                        rtt := z.s.rtt),
              r := Receiver([first, first], map[0 := first, 1 := first], 4), acks := {Ack(1, 0), Ack(2, 2)})
  {
    z := ReachShrunk(first);
    hide Reached;
    z := Accepts(3, z, Ack(1, 0));
    z := Accepts(3, z, Ack(2, 2));
  }

  /** Packets 3 and 4 go out, and Send gets up to the number of packet 5, in the slot of packet 2. */
  lemma ReachOverwriting(first: Payload, second: Payload) returns (z: System)
    ensures Reached(3, z) && z.s.Shape()
    ensures z.s.window == 3 && z.s.base == 2 && z.s.nextToSend == z.s.nextSeq == 5 && !z.s.quit && z.s.retx == 0
    ensures z.phase == Filling(0) && z.submitted == Same(5, first) + [second]
    ensures z.r == Receiver([first, first], map[0 := first, 1 := first], 4)
    ensures z.s.ring[2] == Cell(2, first).(size := Defined(|second|), seqNo := Defined(5))
    ensures z.s.wire == [Sent(0, first), Sent(1, first), Sent(2, first), Sent(3, first), Sent(4, first)]
  {
    z := ReachOverdrawn(first);
    assert SlotOf(3, 3) == 0 && SlotOf(4, 3) == 1 && SlotOf(5, 3) == 2;
    hide SlotOf;
    hide Reached;
    z := SendsAndTransmits(3, z, first);
    z := SendsAndTransmits(3, z, first);
    assert z.submitted == Same(5, first);
    z := StartsSend(3, z, second);
  }

  /** The timeout of packet 2 sends the number of packet 5 with the payload of packet 2. */
  lemma ResendsOverwritten(x: System, first: Payload, second: Payload) returns (z: System)
    requires |first| == |second| && 1 <= |second| && x.s.Shape() && Reached(3, x)
    requires x.s.window == 3 && x.s.base == 2 && x.s.nextToSend == x.s.nextSeq == 5 && !x.s.quit && x.s.retx == 0
    requires x.phase == Filling(0) && x.submitted == Same(5, first) + [second]
    requires x.s.ring[2] == Cell(2, first).(size := Defined(|second|), seqNo := Defined(5))
    ensures !Undisturbed(x, TimeOut(4, true)) && z.s.Shape() && Reached(3, z) && z == x.(s := z.s)
    ensures z.s.wire == x.s.wire + [Sent(5, first).(at := 4)]
  {
    assert SlotOf(2, 3) == 2 && SlotOf(5, 3) == 2;
    hide SlotOf;
    hide Reached;
    assert first[..|first|] == first;
    z := Next(3, x, TimeOut(4, true));
  }

  /** A window taken back and no duplicate ACK at all: the receiver puts out the payload of packet 2 as that of packet
      5. */
  lemma WindowTooSmall(first: Payload, second: Payload) returns (x: System, z: System)
    requires |first| == |second| && 1 <= |second|
    ensures Reached(3, x) && x.s.Shape() && !Undisturbed(x, TimeOut(4, true))
    ensures Reached(3, z) && z.submitted == Same(5, first) + [second] && z.r.delivered == Same(6, first)
  {
    x := ReachOverwriting(first, second);
    z := ResendsOverwritten(x, first, second);
    z := PutsOutAll(z, first);
  }

  lemma PutsOutAll(y: System, first: Payload) returns (z: System)
    requires y.s.Shape() && Reached(3, y) && y.r == Receiver([first, first], map[0 := first, 1 := first], 4)
    requires 6 <= |y.s.wire| && forall k: nat :: 2 <= k < 6 ==> y.s.wire[k].body == Defined(Body(k, first))
    ensures Reached(3, z) && z.submitted == y.submitted && z.r.delivered == Same(6, first)
  {
    hide Reached;
    z := TakesIn(3, y, 2, 2, first);
    z := TakesIn(3, z, 3, 3, first);
    z := TakesIn(3, z, 4, 4, first);
    z := TakesIn(3, z, 5, 5, first);
    z := PutsOut(3, z, first);
    z := PutsOut(3, z, first);
    z := PutsOut(3, z, first);
    z := PutsOut(3, z, first);
    assert z.r.delivered == Same(6, first);
  }
}
