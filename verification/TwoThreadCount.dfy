/** The counter retxForBase, which SendThread and RecvThread both read and write without a lock: when it counts, and a
    run in which it does not. */
module TwoThreadCount {
  import opened Common
  import opened Sender
  import opened SlidingWindow
  import opened TwoThread
  import opened TwoThreadRuns

  /** Retransmissions charged since RecvThread last set the counter to 0. */
  function Charges(acts: seq<Act>): nat
    decreases |acts|
  {
    if acts == [] then 0
    else
      var before := Charges(acts[..|acts| - 1]);
      match acts[|acts| - 1]
      case OfRcv(Clear) => 0
      case OfSnd(WriteCount) => before + 1
      case OfRcv(WriteTally) => before + 1
      case _ => before
  }

  /** Between the two halves of an increment nothing else was written to the counter, or the same value. */
  predicate Unraced(y: Duo, a: Act) {
    match a
    case OfSnd(WriteCount) => y.snd.Counting? ==> y.snd.count == y.v.retx
    case OfRcv(WriteTally) => y.rcv.Tallying? ==> y.rcv.count == y.v.retx
    case _ => true
  }

  predicate AllUnraced(y: Duo, acts: seq<Act>)
    requires y.v.Shape()
    decreases |acts|
  {
    acts == [] ||
    var n := |acts| - 1;
    AllUnraced(y, acts[..n]) && match Run2(y, acts[..n])
                                case None => true
                                case Some(x) => Unraced(x, acts[n])
  }

  /** An increment adds one if and only if it is not raced. */
  lemma IncrementExact(y: Duo)
    requires y.v.Shape()
    ensures y.snd.Counting? ==> (SndStep(y, WriteCount).v.retx == y.v.retx + 1 <==> Unraced(y, OfSnd(WriteCount)))
    ensures y.rcv.Tallying? ==> (RcvStep(y, WriteTally).v.retx == y.v.retx + 1 <==> Unraced(y, OfRcv(WriteTally)))
  {
    hide SlotOf;
  }

  /** No other step touches the counter, but for the reset. */
  lemma CountStep2(y: Duo, a: Act)
    requires y.v.Shape() && Can(y, a) && Unraced(y, a)
    ensures Step2(y, a).v.retx ==
      match a
      case OfRcv(Clear) => 0
      case OfSnd(WriteCount) => y.v.retx + 1
      case OfRcv(WriteTally) => y.v.retx + 1
      case _ => y.v.retx
  {
    hide SlotOf;
    hide CopySafe;
    hide Copied;
  }

  /** Over every run of the code whose increments are not raced, the counter is the number of retransmissions charged
      since the last reset; and the thread gives up exactly when there have been more than 50. */
  lemma {:induction false} CountExact(window: nat, wnd: nat, acts: seq<Act>)
    requires 1 <= window && Run2(Opening(window, wnd), acts).Some? && AllUnraced(Opening(window, wnd), acts)
    ensures var y := Run2(Opening(window, wnd), acts).value;
      && y.v.retx == Charges(acts)
      && (y.snd.Charged? ==> (SndStep(y, Decide).snd.Gone? <==> Charges(acts) > 50))
    decreases |acts|
  {
    hide Step2;
    hide Can;
    hide Unraced;
    if acts != [] {
      hide Opening;
      var n := |acts| - 1;
      CountExact(window, wnd, acts[..n]);
      CountStep2(Run2(Opening(window, wnd), acts[..n]).value, acts[n]);
    }
    hide SlotOf;
  }

  // ------------------------------------------------ a reset that is lost

  /** W = 1: packet 0 sent once and resent c times. */
  function Timed(first: Payload, c: nat): Duo
    requires |first| <= MAX_PAYLOAD
  {
    var y := SentOne(1, first);
    y.(v := y.v.(retx := c, wire := seq(c + 1, _ => Frame(Defined(0), first))))
  }

  /** A timeout that finds packet 0 outstanding reads the counter. */
  lemma ReadsCount(first: Payload, c: nat) returns (z: Duo)
    requires |first| <= MAX_PAYLOAD && Reached(1, Timed(first, c))
    ensures z == Timed(first, c).(snd := Counting(0, |first|, c)) && Reached(1, z)
  {
    assert SlotOf(0, 1) == 0;
    hide SlotOf;
    hide Reached;
    hide Buffer;
    z := Onward(1, Timed(first, c), OfSnd(Expire));
    z := Onward(1, z, OfSnd(Choose));
    z := Onward(1, z, OfSnd(Gauge));
    z := Onward(1, z, OfSnd(ReadCount));
  }

  /** The rest of a timeout that has attempts left. */
  lemma SendsAgain(first: Payload, c: nat) returns (z: Duo)
    requires |first| <= MAX_PAYLOAD && c < MAX_ATTEMPTS && Reached(1, Timed(first, c).(snd := Counting(0, |first|, c)))
    ensures var y := Timed(first, c);
      z == y.(v := y.v.(retx := c + 1), snd := Resending(0, |first|)) && Reached(1, z)
  {
    hide Reached;
    hide Buffer;
    z := Onward(1, Timed(first, c).(snd := Counting(0, |first|, c)), OfSnd(WriteCount));
    z := Onward(1, z, OfSnd(Decide));
  }

  lemma ResendsOnce(first: Payload, c: nat)
    requires |first| <= MAX_PAYLOAD && c < MAX_ATTEMPTS && Reached(1, Timed(first, c))
    ensures Reached(1, Timed(first, c + 1))
  {
    var z := ReadsCount(first, c);
    z := SendsAgain(first, c);
    assert SlotOf(0, 1) == 0;
    hide SlotOf;
    hide Reached;
    hide Buffer;
    hide CopySafe;
    z := Onward(1, z, OfSnd(Start));
    z := Onward(1, z, OfSnd(CopyMore(|first|)));
    assert z.snd.c.got == first;
    z := Onward(1, z, OfSnd(End(true)));
    assert z.v.wire == Timed(first, c + 1).v.wire;
    assert z == Timed(first, c + 1);
  }

  lemma TimedOnce(first: Payload)
    requires |first| <= MAX_PAYLOAD
    ensures Timed(first, 0) == SentOne(1, first)
  {
    assert Timed(first, 0).v.wire == [Frame(Defined(0), first)];
    hide Buffer;
  }

  lemma {:induction false} ReachTimed(first: Payload, c: nat)
    requires |first| <= MAX_PAYLOAD && c <= MAX_ATTEMPTS
    ensures Reached(1, Timed(first, c))
  {
    hide *;
    if c == 0 {
      ReachSentOne(1, first);
      TimedOnce(first);
    } else {
      ReachTimed(first, c - 1);
      ResendsOnce(first, c - 1);
    }
  }

  /** The ACK of packet 0 between the two halves of the 51st increment: the reset is lost, and the thread gives up with
      everything submitted acknowledged. */
  lemma ResetLost(first: Payload) returns (x: Duo, y: Duo)
    requires |first| <= MAX_PAYLOAD
    ensures x.v.Shape() && Reached(1, x) && !Unraced(x, OfSnd(WriteCount))
    ensures Reached(1, y) && y.v.quit && y.snd == Gone(0)
    ensures y.v.base == y.v.nextSeq == 1 && y.submitted == y.r.delivered == [first]
  {
    ReachTimed(first, MAX_ATTEMPTS);
    x := ReadsCount(first, MAX_ATTEMPTS);
    hide Reached;
    hide Buffer;
    x := Answered(1, x, first);
    x := Freed(x);
    y := Onward(1, x, OfSnd(WriteCount));
    y := Onward(1, y, OfSnd(Decide));
  }
}
