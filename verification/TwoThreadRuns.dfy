/** Runs of the two-thread variant that are not timely, followed to where they do harm. */
module TwoThreadRuns {
  import opened Common
  import opened Sender
  import opened SlidingWindow
  import opened TwoThread
  import opened TwoThreadSafe

  /** The code can get from the end of Open to y, with the ring and the receiver's first window of size w. */
  ghost predicate Reached(window: nat, y: Duo)
    requires 1 <= window
  {
    exists acts :: Run2(Opening(window, window), acts) == Some(y)
  }

  lemma Onward(w: nat, y: Duo, a: Act) returns (z: Duo)
    requires 1 <= w && y.v.Shape() && Reached(w, y) && Can(y, a)
    ensures z == Step2(y, a) && z.v.Shape() && Reached(w, z)
  {
    hide Opening;
    hide Can;
    hide Step2;
    z := Step2(y, a);
    var acts :| Run2(Opening(w, w), acts) == Some(y);
    assert (acts + [a])[..|acts|] == acts;
    assert Run2(Opening(w, w), acts + [a]) == Some(z);
  }

  lemma ReachedStart(w: nat)
    requires 1 <= w
    ensures Reached(w, Opening(w, w))
  {
    assert Run2(Opening(w, w), []) == Some(Opening(w, w));
  }

  // ------------------------------------------------ stretches of one thread

  /** Send passes its wait and reads the windows. */
  lemma ReadWindows(w: nat, y: Duo) returns (z: Duo)
    requires 1 <= w && y.v.Shape() && Reached(w, y) && y.v.window == w && y.v.receiverWindow <= w
    requires y.app.Outside? && !y.v.quit && 0 < y.v.empty
    ensures z == y.(v := y.v.(empty := y.v.empty - 1), app := Sampled(y.v.receiverWindow)) && Reached(w, z)
  {
    hide Reached;
    z := Onward(w, y, OfApp(TakeSlot));
    z := Onward(w, z, OfApp(Compare));
    z := Onward(w, z, OfApp(Sample));
  }

  /** It writes size and header of its slot. */
  lemma FillHeader(w: nat, y: Duo, data: Payload) returns (z: Duo)
    requires 1 <= w && y.v.Shape() && Reached(w, y) && y.app.Windowed? && |data| <= MAX_PAYLOAD
    ensures var c := y.v.At(y.v.nextSeq).(size := |data|, seqNo := Defined(y.v.nextSeq));
      z == y.(v := y.v.With(y.v.nextSeq, c), app := Headed(0), submitted := y.submitted + [data])
    ensures z.v.Shape() && Reached(w, z)
  {
    hide Reached;
    z := Onward(w, y, OfApp(SetSize(data)));
    z := Onward(w, z, OfApp(SetHeader));
    hide SlotOf;
    var i := SlotOf(y.v.nextSeq, y.v.window);
    assert z.v.ring == y.v.ring[i := y.v.ring[i].(size := |data|, seqNo := Defined(y.v.nextSeq))];
  }

  /** A buffer of zeros after a payload was copied into it. */
  function Buffer(data: Payload): (buf: Payload)
    requires |data| <= MAX_PAYLOAD
    ensures |buf| == MAX_PAYLOAD && buf[..|data|] == data
  {
    Copied(data, Zeros(MAX_PAYLOAD), 0, |data|)
  }

  /** A whole Send of the first packet, and its first transmission. */
  function SentOne(w: nat, data: Payload): Duo
    requires 1 <= w && |data| <= MAX_PAYLOAD
  {
    var y := Opening(w, w);
    var c := Cell(|data|, Defined(0), Buffer(data));
    y.(v := y.v.(nextSeq := 1, nextToSend := 1, effectiveWindow := w, ring := y.v.ring[0 := c], empty := w - 1,
                 wire := [Frame(Defined(0), data)]),
       submitted := [data])
  }

  /** The rest of Send. */
  lemma FinishSend(w: nat, y: Duo) returns (z: Duo)
    requires 1 <= w && y.v.Shape() && Reached(w, y) && y.app == Headed(0) && y.submitted != [] && y.v.full < y.v.window
    ensures var c, data := y.v.At(y.v.nextSeq), y.submitted[|y.submitted| - 1];
      var d := c.(buf := Copied(data, c.buf, 0, |data|));
      z == y.(v := y.v.With(y.v.nextSeq, d).(nextSeq := y.v.nextSeq + 1, full := y.v.full + 1), app := Outside)
    ensures z.v.Shape() && Reached(w, z)
  {
    hide Reached;
    hide SlotOf;
    hide Copied;
    z := Onward(w, y, OfApp(CopyIn(|y.submitted[|y.submitted| - 1]|)));
    z := Onward(w, z, OfApp(EndCopy));
    z := Onward(w, z, OfApp(Count));
    z := Onward(w, z, OfApp(SignalFull));
  }

  lemma ReachHeaded(w: nat, data: Payload) returns (z: Duo)
    requires 1 <= w && |data| <= MAX_PAYLOAD
    ensures Reached(w, z) && z.v.Shape()
    ensures var y := Opening(w, w);
      z == y.(v := y.v.(effectiveWindow := w, empty := w - 1,
                        ring := y.v.ring[0 := Cell(|data|, Defined(0), Zeros(MAX_PAYLOAD))]),
              app := Headed(0), submitted := [data])
  {
    ReachedStart(w);
    SmallSlot(0, w);
    hide SlotOf;
    hide Reached;
    hide Zeros;
    z := ReadWindows(w, Opening(w, w));
    z := Onward(w, z, OfApp(SetWindow));
    z := FillHeader(w, z, data);
  }

  lemma ReachFilled(w: nat, data: Payload) returns (z: Duo)
    requires 1 <= w && |data| <= MAX_PAYLOAD
    ensures Reached(w, z) && z.v.Shape()
    ensures var y := Opening(w, w);
      z == y.(v := y.v.(nextSeq := 1, effectiveWindow := w, empty := w - 1, full := 1,
                        ring := y.v.ring[0 := Cell(|data|, Defined(0), Buffer(data))]),
              submitted := [data])
  {
    z := ReachHeaded(w, data);
    SmallSlot(0, w);
    hide SlotOf;
    hide Reached;
    hide Buffer;
    hide Zeros;
    z := FinishSend(w, z);
    var c := Cell(|data|, Defined(0), Buffer(data));
    assert z.v.ring == Opening(w, w).v.ring[0 := c];
  }

  lemma ReachSentOne(w: nat, data: Payload)
    requires 1 <= w && |data| <= MAX_PAYLOAD
    ensures Reached(w, SentOne(w, data))
  {
    var y := ReachFilled(w, data);
    SmallSlot(0, w);
    hide SlotOf;
    hide Reached;
    hide Buffer;
    var z := Onward(w, y, OfSnd(PickUp));
    z := Onward(w, z, OfSnd(Measure));
    z := Onward(w, z, OfSnd(Start));
    z := Onward(w, z, OfSnd(CopyMore(|data|)));
    z := Onward(w, z, OfSnd(End(true)));
    z := Onward(w, z, OfSnd(Bump));
    assert z == SentOne(w, data);
  }

  /** The receiver takes packet 0 and acknowledges it with window 1. */
  lemma Answered(w: nat, y: Duo, data: Payload) returns (z: Duo)
    requires 1 <= w <= 2 && y.v.Shape() && Reached(w, y) && 1 <= |y.v.wire| && y.v.wire[0] == Frame(Defined(0), data)
    requires y.r == Receiver([], map[], w) && y.acks == {}
    ensures z == y.(r := Receiver([data], map[0 := data], 2), acks := {Ack(1, 1)}) && Reached(w, z)
  {
    hide Reached;
    z := Onward(w, y, OfNet(Reach(0)));
    z := Onward(w, z, OfNet(Output));
    assert |z.r.delivered| == 1;
    z := Onward(w, z, OfNet(Reply(1)));
  }

  // ------------------------------------------------ a resend that carries the wrong payload

  /** W = 1: packet 0 sent and acknowledged, the size and the header of packet 1 in the only slot. SendThread stands
      at t. */
  function Torn(first: Payload, second: Payload, t: SendPc): Duo
    requires |first| <= MAX_PAYLOAD
  {
    Duo(Vars(1, 1, 1, 1, 2, 0, 0, 1, 1, [Cell(|second|, Defined(1), Buffer(first))], 0, 0, false,
             [Frame(Defined(0), first)]),
        Headed(0), t, Listening, [first, second], Receiver([first], map[0 := first], 2), {Ack(1, 1)})
  }

  /** RecvThread handles Ack(1, 1). */
  lemma Freed(y: Duo) returns (z: Duo)
    requires y.v.Shape() && Reached(1, y) && y.v.window == 1 && y.acks == {Ack(1, 1)} && y.rcv.Listening?
    requires y.v.base == 0 && y.v.lastReleased == 1 && y.v.empty == 0 && !y.v.quit && y.app.Outside?
    ensures z == y.(v := y.v.(base := 1, receiverWindow := 1, effectiveWindow := 1, retx := 0, dupAck := 0,
                              lastReleased := 2, empty := 1))
    ensures Reached(1, z)
  {
    hide Reached;
    z := Onward(1, y, OfRcv(Hear(Ack(1, 1))));
    z := Onward(1, z, OfRcv(Narrow));
    z := Onward(1, z, OfRcv(Admit));
    z := Onward(1, z, OfRcv(Move));
    z := Onward(1, z, OfRcv(Clear));
    z := Onward(1, z, OfRcv(Settle));
    z := Onward(1, z, OfRcv(Release));
  }

  lemma ReachTorn(first: Payload, second: Payload, t: SendPc)
    requires |first| <= MAX_PAYLOAD && |second| <= MAX_PAYLOAD
    requires Reached(1, SentOne(1, first).(snd := t))
    ensures Reached(1, Torn(first, second, t))
  {
    hide Reached;
    hide Buffer;
    var y := SentOne(1, first).(snd := t);
    assert y.v.ring == [Cell(|first|, Defined(0), Buffer(first))];
    var z := Answered(1, y, first);
    z := Freed(z);
    z := ReadWindows(1, z);
    z := Onward(1, z, OfApp(SetWindow));
    assert SlotOf(1, 1) == 0;
    hide SlotOf;
    z := FillHeader(1, z, second);
    assert z.v.ring == [Cell(|second|, Defined(1), Buffer(first))];
    assert z.submitted == [first, second];
    assert z == Torn(first, second, t);
  }

  /** The state in which a resend of b begins, and the receiver's end of it. */
  predicate WrongPayload(x: Duo, y: Duo, b: nat, first: Payload, second: Payload)
    requires x.v.Shape()
  {
    && !CopySafe(x, b, |first|) && x.snd == Resending(b, |first|) && x.submitted == y.submitted == [first, second]
    && x.r.delivered == [first] && y.r.delivered == [first, first]
  }

  lemma Recharged(first: Payload, second: Payload, b: nat) returns (x: Duo)
    requires |first| <= MAX_PAYLOAD && Reached(1, Torn(first, second, Gauged(b, |first|)))
    ensures var y := Torn(first, second, Resending(b, |first|)); x == y.(v := y.v.(retx := 1)) && Reached(1, x)
  {
    hide Reached;
    hide Buffer;
    x := Onward(1, Torn(first, second, Gauged(b, |first|)), OfSnd(ReadCount));
    x := Onward(1, x, OfSnd(WriteCount));
    x := Onward(1, x, OfSnd(Decide));
  }

  lemma TooLate(x: Duo, b: nat, first: Payload, second: Payload)
    requires |first| <= MAX_PAYLOAD && b <= 1
    requires var y := Torn(first, second, Resending(b, |first|)); x == y.(v := y.v.(retx := 1))
    ensures !CopySafe(x, b, |first|)
  {
    assert SlotOf(b, 1) == 0 && SlotOf(1, 1) == 0;
    hide SlotOf;
    assert LastIn(0, 2, 1) == Some(1);
  }

  /** sendto copies the whole slot. */
  lemma CopiedTorn(x: Duo, b: nat, first: Payload, second: Payload) returns (y: Duo)
    requires |first| <= MAX_PAYLOAD && b <= 1 && Reached(1, x)
    requires var y := Torn(first, second, Resending(b, |first|)); x == y.(v := y.v.(retx := 1))
    ensures y == x.(snd := Copying(Copy(b, |first|, Defined(1), first, CopySafe(x, b, |first|)), false))
    ensures Reached(1, y)
  {
    hide Reached;
    hide Buffer;
    hide CopySafe;
    assert SlotOf(b, 1) == 0;
    hide SlotOf;
    y := Onward(1, x, OfSnd(Start));
    y := Onward(1, y, OfSnd(CopyMore(|first|)));
    assert y.snd.c.got == first;
  }

  lemma ResendTorn(first: Payload, second: Payload, b: nat) returns (x: Duo, y: Duo)
    requires |first| == |second| <= MAX_PAYLOAD && b <= 1
    requires Reached(1, Torn(first, second, Gauged(b, |first|)))
    ensures x.v.Shape() && Reached(1, x) && Reached(1, y)
    ensures WrongPayload(x, y, b, first, second)
  {
    x := Recharged(first, second, b);
    TooLate(x, b, first, second);
    y := CopiedTorn(x, b, first, second);
    hide Reached;
    hide Buffer;
    hide CopySafe;
    hide SlotOf;
    hide Whole;
    assert |y.snd.c.got| == Whole(y, y.snd.c) by { WholeTorn(y, first, second, b); }
    y := Onward(1, y, OfSnd(End(true)));
    assert y.v.wire[1] == Frame(Defined(1), first);
    y := Onward(1, y, OfNet(Reach(1)));
    y := Onward(1, y, OfNet(Output));
    assert y.r.delivered == [first, first];
  }

  lemma WholeTorn(y: Duo, first: Payload, second: Payload, b: nat)
    requires y.v.Shape() && |first| <= MAX_PAYLOAD && y.snd.Copying? && y.snd.c.b == b && y.snd.c.len == |first|
    requires y.v.ring == [Cell(|second|, Defined(1), Buffer(first))] && y.v.window == 1
    ensures Whole(y, y.snd.c) == |first|
  {
    assert SlotOf(b, 1) == 0;
  }

  /** An ACK between line 66, which finds packet 0 outstanding, and line 67, which reads base again: SendThread picks
      the slot of packet 1, which Send is still writing. The receiver puts out the first payload twice. */
  lemma ChosenTooLate(first: Payload, second: Payload) returns (x: Duo, y: Duo)
    requires |first| == |second| <= MAX_PAYLOAD
    ensures x.v.Shape() && Reached(1, x) && Reached(1, y)
    ensures WrongPayload(x, y, 1, first, second)
  {
    ReachSentOne(1, first);
    hide Reached;
    hide Buffer;
    var z := Onward(1, SentOne(1, first), OfSnd(Expire));
    ReachTorn(first, second, Tested);
    z := Onward(1, Torn(first, second, Tested), OfSnd(Choose));
    assert SlotOf(1, 1) == 0;
    z := Onward(1, z, OfSnd(Gauge));
    assert z == Torn(first, second, Gauged(1, |first|));
    x, y := ResendTorn(first, second, 1);
  }

  /** The same ACK after packet 0 was chosen and measured: its slot is lost before sendto takes its copy. */
  lemma SentTooLate(first: Payload, second: Payload) returns (x: Duo, y: Duo)
    requires |first| == |second| <= MAX_PAYLOAD
    ensures x.v.Shape() && Reached(1, x) && Reached(1, y)
    ensures WrongPayload(x, y, 0, first, second)
  {
    ReachSentOne(1, first);
    hide Reached;
    hide Buffer;
    var z := Onward(1, SentOne(1, first), OfSnd(Expire));
    z := Onward(1, z, OfSnd(Choose));
    assert SlotOf(0, 1) == 0;
    z := Onward(1, z, OfSnd(Gauge));
    assert z == SentOne(1, first).(snd := Gauged(0, |first|));
    ReachTorn(first, second, Gauged(0, |first|));
    x, y := ResendTorn(first, second, 0);
  }

  // ------------------------------------------------ credits beyond the receiver's edge

  lemma WindowsRead(first: Payload) returns (x: Duo)
    requires |first| <= MAX_PAYLOAD
    ensures x.v.Shape() && Reached(2, x)
    ensures var y := SentOne(2, first);
      x == y.(v := y.v.(empty := 0), app := Sampled(2), r := Receiver([first], map[0 := first], 2), acks := {Ack(1, 1)})
  {
    ReachSentOne(2, first);
    hide Reached;
    hide Buffer;
    x := Answered(2, SentOne(2, first), first);
    x := ReadWindows(2, x);
  }

  /** W = 2, and a receiver that keeps its rule. Send reads the old window before the ACK and writes effectiveWindow
      after line 127: line 132 hands out a credit that the receiver never gave. */
  lemma CreditTooMany(first: Payload) returns (x: Duo, y: Duo)
    requires |first| <= MAX_PAYLOAD
    ensures x.v.Shape() && Reached(2, x) && x.rcv.Cleared? && !WindowKept(x)
    ensures y == Step2(x, OfRcv(Settle)) && Reached(2, y)
    ensures y.v.lastReleased == 3 && y.v.base + Min(2, y.v.receiverWindow) == y.r.edge == 2
  {
    x := WindowsRead(first);
    hide Reached;
    hide Buffer;
    hide Zeros;
    x := Onward(2, x, OfRcv(Hear(Ack(1, 1))));
    x := Onward(2, x, OfRcv(Narrow));
    x := Onward(2, x, OfApp(SetWindow));
    x := Onward(2, x, OfRcv(Admit));
    x := Onward(2, x, OfRcv(Move));
    x := Onward(2, x, OfRcv(Clear));
    y := Onward(2, x, OfRcv(Settle));
  }
}
