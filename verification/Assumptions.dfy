/** Exactly when the sender's code keeps its promises: the two conditions a run needs, each with both
    directions and a reachable state where it fails, and the one state in which the sender is stuck. */
module Assumptions {
  import opened Common
  import opened Sender
  import opened SlidingWindow

  /** An ACK keeps window and credits in step if and only if it does not pull back the right edge. */
  lemma AckExact(y: System, ack: nat, wnd: nat, now: int)
    requires Accounts(y) && y.s.base < ack <= y.s.nextToSend
    ensures Accounts(y.(s := Advance(y.s, ack, wnd, now))) <==> y.s.lastReleased <= ack + Min(y.s.window, wnd)
  {}

  /** A fast retransmit puts a packet on the wire that was sent before, unaltered, if and only if something
      is outstanding, or nothing is queued and the ring has been filled once. */
  lemma FastRetransmitExact(y: System, now: int)
    requires Safe(y)
    ensures Truthful(Resend(y.s, now).wire[|y.s.wire|], y.submitted, y.s.nextToSend) <==> Resendable(y)
  {
    var b := y.s.base;
    if Resendable(y) {
      ResendTruthful(y, now);
    } else if b < |y.submitted| {
      assert Holds(y, b);
    } else if b < y.s.window {
      SmallSlot(b, y.s.window);
    } else {
      SlotPeriod(b - y.s.window, y.s.window);
      assert Holds(y, b - y.s.window);
    }
    hide SlotOf;
    hide RingHolds;
    hide WireTruthful;
    hide AcksOrdered;
  }

  /** With no quit and no Send under way, the sender can neither take a packet, nor transmit one, nor have
      its timer armed if and only if everything is acknowledged and the receiver's window is closed. */
  lemma StuckExact(y: System)
    requires Safe(y) && y.phase == Idle && !y.s.quit
    ensures (y.s.empty == 0 && y.s.full == 0 && y.s.nextToSend == y.s.base) <==>
            (y.s.base == y.s.nextSeq && y.s.receiverWindow == 0)
  {}

  /** The receiver never advertises an empty window. */
  predicate Generous(acts: seq<Action>) { forall k :: 0 <= k < |acts| && acts[k].AckOut? ==> 1 <= acts[k].wnd }

  ghost predicate WindowsOpen(y: System) { 1 <= y.s.receiverWindow && forall a :: a in y.acks ==> 1 <= a.wnd }

  lemma WindowsStayOpen(y: System, a: Action)
    requires y.s.Shape() && Enabled(y, a) && WindowsOpen(y) && (a.AckOut? ==> 1 <= a.wnd)
    ensures WindowsOpen(Step(y, a))
  {}

  lemma {:induction false} RunStaysOpen(y: System, acts: seq<Action>)
    requires y.s.Shape() && WindowsOpen(y) && Run(y, acts).Some? && Generous(acts)
    ensures WindowsOpen(Run(y, acts).value)
    decreases |acts|
  {
    hide Enabled;
    hide Step;
    hide WindowsOpen;
    if acts != [] {
      var n := |acts| - 1;
      RunStaysOpen(y, acts[..n]);
      WindowsStayOpen(Run(y, acts[..n]).value, acts[n]);
    }
  }

  /** Some step of Send, a first transmission or a timeout can happen. */
  predicate CanMove(z: System)
    requires z.s.Shape()
  {
    z.phase != Idle || Enabled(z, EnterSend) || Enabled(z, Transmit(0, true)) || Enabled(z, TimeOut(0, true))
  }

  lemma OpenCanMove(z: System)
    requires Safe(z) && !z.s.quit && 1 <= z.s.receiverWindow
    ensures CanMove(z)
  {
    if z.phase == Idle {
      StuckExact(z);
    }
    hide RingHolds;
    hide WireTruthful;
  }

  /** If every advertised window is at least 1, then after every run in which quit was not signalled the sender can
      move. */
  lemma NeverStuck(window: nat, wnd: nat, syn: real, acts: seq<Action>)
    requires 1 <= window && 1 <= wnd && Generous(acts) && Run(Initial(window, wnd, syn), acts).Some?
    ensures var z := Run(Initial(window, wnd, syn), acts).value; !z.s.quit ==> CanMove(z)
  {
    var y := Initial(window, wnd, syn);
    InitialSafe(window, wnd, syn);
    assert WindowsOpen(y);
    hide Safe;
    hide CanMove;
    hide Initial;
    hide Run;
    RunSafe(y, acts);
    RunStaysOpen(y, acts);
    var z := Run(y, acts).value;
    if !z.s.quit {
      OpenCanMove(z);
    }
  }

  // ------------------------------------------------ reachable states where the conditions fail

  lemma RunOne(y: System, acts: seq<Action>, a: Action)
    requires Safe(y) && Run(y, acts).Some? && Enabled(Run(y, acts).value, a)
    ensures Run(y, acts + [a]) == Some(Step(Run(y, acts).value, a))
    ensures Safe(Step(Run(y, acts).value, a))
  {
    assert (acts + [a])[..|acts|] == acts;
    RunSafe(y, acts);
    StepSafe(Run(y, acts).value, a);
  }

  /** One whole Send of `data`. */
  function SendActions(data: Payload): seq<Action> {
    [EnterSend] + [WriteSize(data)] + [WriteNumber] + [WriteBytes(|data|)] + [LeaveSend]
  }

  /** The steps of one Send, and what they amount to. */
  lemma SendRound(x: System, data: Payload) returns (x1: System, x2: System, x3: System, x4: System, x5: System)
    requires x.s.Shape() && x.phase == Idle && !x.s.quit && 0 < x.s.empty
    ensures Enabled(x, EnterSend) && x1 == Step(x, EnterSend)
    ensures Enabled(x1, WriteSize(data)) && x2 == Step(x1, WriteSize(data))
    ensures Enabled(x2, WriteNumber) && x3 == Step(x2, WriteNumber)
    ensures Enabled(x3, WriteBytes(|data|)) && x4 == Step(x3, WriteBytes(|data|))
    ensures Enabled(x4, LeaveSend) && x5 == Step(x4, LeaveSend)
    ensures x5 == x.(s := Publish(Fill(TakeCredit(x.s), data)), submitted := x.submitted + [data])
  {
    hide SlotOf;
    hide Overlaid;
    x1 := Step(x, EnterSend);
    x2 := Step(x1, WriteSize(data));
    x3 := Step(x2, WriteNumber);
    x4 := Step(x3, WriteBytes(|data|));
    x5 := Step(x4, LeaveSend);
  }

  lemma SendActionsAre(acts: seq<Action>, data: Payload)
    ensures acts + SendActions(data) ==
              acts + [EnterSend] + [WriteSize(data)] + [WriteNumber] + [WriteBytes(|data|)] + [LeaveSend]
  {}

  lemma RunSend(y: System, acts: seq<Action>, data: Payload)
    requires Safe(y) && Run(y, acts).Some?
    requires var x := Run(y, acts).value; x.phase == Idle && !x.s.quit && 0 < x.s.empty
    ensures var x := Run(y, acts).value;
      Run(y, acts + SendActions(data)) ==
        Some(x.(s := Publish(Fill(TakeCredit(x.s), data)), submitted := x.submitted + [data]))
  {
    assert y.s.Shape();
    hide *;
    var a1 := acts + [EnterSend];
    var a2 := a1 + [WriteSize(data)];
    var a3 := a2 + [WriteNumber];
    var a4 := a3 + [WriteBytes(|data|)];
    SendActionsAre(acts, data);
    var x1, x2, x3, x4, x5 := SendRound(Run(y, acts).value, data);
    RunOne(y, acts, EnterSend);
    RunOne(y, a1, WriteSize(data));
    RunOne(y, a2, WriteNumber);
    RunOne(y, a3, WriteBytes(|data|));
    RunOne(y, a4, LeaveSend);
  }

  const CORNER: Ack := Ack(1, 2)

  predicate FirstOnWire(y: System, data: Payload) {
    && y.s.Shape() && y.acks == {} && y.r == Receiver([], map[], 2)
    && |y.s.wire| == 1 && y.s.wire[0].body == Defined(Body(0, data))
  }

  /** Window 2: the state after one Send and its first transmission. */
  predicate SentOnce(y: System, data: Payload) {
    && FirstOnWire(y, data) && y.phase == Idle && !y.s.quit && y.submitted == [data]
    && y.s.window == y.s.receiverWindow == y.s.lastReleased == 2 && y.s.base == 0 && y.s.nextToSend == y.s.nextSeq == 1
  }

  /** The first transmission after one Send. */
  lemma FirstRound(x: System, data: Payload) returns (z: System)
    requires var y := Initial(2, 2, 0.1);
      x == y.(s := Publish(Fill(TakeCredit(y.s), data)), submitted := y.submitted + [data])
    ensures Enabled(x, Transmit(0, true)) && z == Step(x, Transmit(0, true)) && SentOnce(z, data)
  {
    var y := Initial(2, 2, 0.1);
    FillOnce(TakeCredit(y.s), data);
    hide Fill;
    hide Overlaid;
    assert SlotOf(0, 2) == 0;
    hide SlotOf;
    z := Step(x, Transmit(0, true));
  }

  lemma FirstSent(data: Payload) returns (acts: seq<Action>)
    ensures Run(Initial(2, 2, 0.1), acts).Some?
    ensures Safe(Run(Initial(2, 2, 0.1), acts).value) && SentOnce(Run(Initial(2, 2, 0.1), acts).value, data)
  {
    var y0 := Initial(2, 2, 0.1);
    InitialSafe(2, 2, 0.1);
    assert Run(y0, []) == Some(y0) && y0.phase == Idle && !y0.s.quit && 0 < y0.s.empty && y0.s.Shape();
    hide *;
    RunSend(y0, [], data);
    acts := [] + SendActions(data);
    var z := FirstRound(Run(y0, acts).value, data);
    RunOne(y0, acts, Transmit(0, true));
    acts := acts + [Transmit(0, true)];
  }

  /** Window 2, one packet sent, delivered and acknowledged. */
  lemma OneAcked(data: Payload) returns (acts: seq<Action>)
    ensures Run(Initial(2, 2, 0.1), acts).Some?
    ensures var y := Run(Initial(2, 2, 0.1), acts).value;
      && Safe(y) && y.phase == Idle && !y.s.quit && y.acks == {CORNER} && y.submitted == [data]
      && y.s.window == 2 && y.s.base == y.s.nextToSend == 1 && y.s.dupAck == 0 && 0 < y.s.empty
  {
    acts := FirstSent(data);
    InitialSafe(2, 2, 0.1);
    hide Initial;
    hide Run;
    hide Safe;
    OneDelivered(Initial(2, 2, 0.1), acts, data);
    acts := acts + [Arrive(0)] + [Deliver] + [AckOut(2)] + [AckIn(CORNER, 10, true)];
  }

  /** The receiver takes the only packet and acknowledges it. */
  lemma ReceiverRound(y: System, data: Payload) returns (y1: System, y2: System, z: System)
    requires FirstOnWire(y, data)
    ensures Enabled(y, Arrive(0)) && y1 == Step(y, Arrive(0))
    ensures Enabled(y1, Deliver) && y2 == Step(y1, Deliver)
    ensures Enabled(y2, AckOut(2)) && z == Step(y2, AckOut(2))
    ensures z == y.(r := z.r, acks := {CORNER})
  {
    y1 := Step(y, Arrive(0));
    y2 := Step(y1, Deliver);
    assert |y2.r.delivered| == 1;
    z := Step(y2, AckOut(2));
  }

  lemma OneReceived(y0: System, acts: seq<Action>, data: Payload)
    requires Safe(y0) && Run(y0, acts).Some? && FirstOnWire(Run(y0, acts).value, data)
    ensures var y := Run(y0, acts).value;
      var z := Run(y0, acts + [Arrive(0)] + [Deliver] + [AckOut(2)]);
      z.Some? && z.value == y.(r := z.value.r, acks := {CORNER})
  {
    assert y0.s.Shape();
    hide *;
    var y1, y2, z := ReceiverRound(Run(y0, acts).value, data);
    RunOne(y0, acts, Arrive(0));
    RunOne(y0, acts + [Arrive(0)], Deliver);
    RunOne(y0, acts + [Arrive(0)] + [Deliver], AckOut(2));
  }

  lemma OneDelivered(y0: System, acts: seq<Action>, data: Payload)
    requires Safe(y0) && Run(y0, acts).Some?
    requires var y := Run(y0, acts).value;
      && y.phase == Idle && !y.s.quit && y.acks == {} && y.submitted == [data] && y.r == Receiver([], map[], 2)
      && y.s.window == y.s.receiverWindow == 2 && y.s.base == 0 && y.s.nextToSend == 1
      && |y.s.wire| == 1 && y.s.wire[0].body == Defined(Body(0, data))
    ensures var z := Run(y0, acts + [Arrive(0)] + [Deliver] + [AckOut(2)] + [AckIn(CORNER, 10, true)]);
      && z.Some? && Safe(z.value) && z.value.phase == Idle && !z.value.s.quit && z.value.acks == {CORNER}
      && z.value.submitted == [data] && z.value.s.window == 2 && z.value.s.base == z.value.s.nextToSend == 1
      && z.value.s.dupAck == 0 && 0 < z.value.s.empty
  {
    OneReceived(y0, acts, data);
    var a3 := acts + [Arrive(0)] + [Deliver] + [AckOut(2)];
    RunOne(y0, a3, AckIn(CORNER, 10, true));
  }

  /** Two more copies of the last ACK. */
  lemma TwoDuplicates(y0: System, acts: seq<Action>)
    requires Safe(y0) && Run(y0, acts).Some?
    requires var y := Run(y0, acts).value;
      !y.s.quit && CORNER in y.acks && y.s.base == 1 && y.s.dupAck == 0
    ensures Run(y0, acts + [AckIn(CORNER, 11, true)] + [AckIn(CORNER, 12, true)]) ==
              Some(Run(y0, acts).value.(s := Run(y0, acts).value.s.(dupAck := 2)))
  {
    RunOne(y0, acts, AckIn(CORNER, 11, true));
    RunOne(y0, acts + [AckIn(CORNER, 11, true)], AckIn(CORNER, 12, true));
  }

  /** A channel that repeats the last ACK makes an idle sender transmit a slot that was never written. */
  lemma StrayDuplicates(data: Payload) returns (acts: seq<Action>)
    ensures Run(Initial(2, 2, 0.1), acts).Some?
    ensures var y := Run(Initial(2, 2, 0.1), acts).value;
      && !y.s.quit && CORNER in y.acks && FiresFast(y, 1) && !Resendable(y)
      && OnAck(y.s, 1, 2, 13, true).wire[|y.s.wire|].body == Undefined
  {
    acts := OneAcked(data);
    InitialSafe(2, 2, 0.1);
    TwoDuplicates(Initial(2, 2, 0.1), acts);
    acts := acts + [AckIn(CORNER, 11, true)] + [AckIn(CORNER, 12, true)];
    RunSafe(Initial(2, 2, 0.1), acts);
    SmallSlot(1, 2);
  }

  /** The same duplicates, with a packet queued but not transmitted yet, send that packet before its first
      transmission: its ACK would move base past nextToSend. */
  lemma EarlyRetransmit(first: Payload, second: Payload) returns (acts: seq<Action>)
    ensures Run(Initial(2, 2, 0.1), acts).Some?
    ensures var y := Run(Initial(2, 2, 0.1), acts).value;
      && !y.s.quit && CORNER in y.acks && FiresFast(y, 1) && !Resendable(y)
      && OnAck(y.s, 1, 2, 13, true).wire[|y.s.wire|].body == Defined(Body(y.s.nextToSend, second))
  {
    acts := OneAcked(first);
    InitialSafe(2, 2, 0.1);
    hide Initial;
    TwoDuplicates(Initial(2, 2, 0.1), acts);
    acts := acts + [AckIn(CORNER, 11, true)] + [AckIn(CORNER, 12, true)];
    RunSafe(Initial(2, 2, 0.1), acts);
    RunSend(Initial(2, 2, 0.1), acts, second);
    acts := acts + SendActions(second);
    RunSafe(Initial(2, 2, 0.1), acts);
    hide SendActions;
    var y := Run(Initial(2, 2, 0.1), acts).value;
    OfferedAt(y, 1);
  }

  lemma TwoSent(first: Payload, second: Payload) returns (acts: seq<Action>)
    ensures Run(Initial(2, 2, 0.1), acts).Some?
    ensures var s := Run(Initial(2, 2, 0.1), acts).value.s;
      !s.quit && s.base == 0 && s.nextToSend == 1 && s.nextSeq == 2 && s.lastReleased == 2 && s.window == 2
  {
    acts := FirstSent(first);
    InitialSafe(2, 2, 0.1);
    var y0 := Initial(2, 2, 0.1);
    hide Initial;
    assert 0 < Run(y0, acts).value.s.empty;
    RunSend(y0, acts, second);
    FillOnce(TakeCredit(Run(y0, acts).value.s), second);
    acts := acts + SendActions(second);
    hide Run;
    hide SendActions;
    hide Fill;
    hide Overlaid;
    hide Safe;
  }

  /** A receiver that takes back permission: with two packets submitted and one transmitted, an ACK for it
      with a closed window leaves lastReleased below nextSeq. */
  lemma ShrinkingWindow(first: Payload, second: Payload) returns (acts: seq<Action>)
    ensures Run(Initial(2, 2, 0.1), acts).Some?
    ensures var y := Run(Initial(2, 2, 0.1), acts).value;
      && !y.s.quit && y.s.base < 1 <= y.s.nextToSend
      && Advance(y.s, 1, 0, 10).lastReleased < Advance(y.s, 1, 0, 10).nextSeq
  {
    acts := TwoSent(first, second);
    hide Run;
    hide Initial;
    hide SlotOf;
  }
}
